/** Block execution: the preview, the commit, and runs of blocks (pkg/state/state.go). */
module ChainState {
  import opened Wrappers
  import opened Machine
  import opened Types
  import opened AccountStore
  import opened Ledger
  import opened StateDag
  import Auth
  import Contracts
  import Encoding
  import PayloadCodec
  import Rc
  import StateRoot
  import TimestampCodec

  // ----- the contract engine's part -----

  /** The engine as the preview and the coster ask it: what a call to an address is estimated to cost. */
  datatype ContractEngine = ContractEngine(instructions: Address -> uint64, stateWrites: Address -> uint64)

  /** What running a deploy or a call reports. */
  datatype Report = Failed | Finished(instructions: uint64, stateWrites: uint64)

  /** A preview asks for estimates; a commit runs the contract of transaction i. */
  datatype Mode = Preview | Commit(reports: nat -> Report)

  function Outcome(engine: Option<ContractEngine>, mode: Mode, i: nat, p: Payload): ContractOutcome {
    if engine.None? then Unconfigured
    else
      match mode
      case Preview =>
        (match p
         case ContractDeploy(code, _) => if Contracts.ValidateWasmCode(code) then Ran(0, 1) else Rejected
         case ContractCall(contract, _, _) =>
           Ran(engine.value.instructions(contract), engine.value.stateWrites(contract))
         case _ => Rejected)
      case Commit(reports) =>
        (match reports(i)
         case Failed => Rejected
         case Finished(instructions, stateWrites) => Ran(instructions, stateWrites))
  }

  function OutcomeOf(engine: Option<ContractEngine>, mode: Mode, i: nat, tx: Transaction): ContractOutcome {
    var env := PayloadCodec.DecodePayload(tx.payload);
    if env.None? then Unconfigured else Outcome(engine, mode, i, env.value.payload)
  }

  function StepOf(engine: Option<ContractEngine>, mode: Mode, now: int64, txs: seq<Transaction>, i: nat): Step
    requires i < |txs|
  {
    Step(txs[i], now, OutcomeOf(engine, mode, i, txs[i]))
  }

  function StepsOf(engine: Option<ContractEngine>, mode: Mode, now: int64, txs: seq<Transaction>): (steps: seq<Step>)
    ensures |steps| == |txs| && forall i :: 0 <= i < |txs| ==> steps[i] == StepOf(engine, mode, now, txs, i)
  {
    seq(|txs|, i requires 0 <= i < |txs| => StepOf(engine, mode, now, txs, i))
  }

  // ----- what a block does -----

  /**
   * Which contract transactions a preview turns away once sender, nonce and signature are in
   * order, and what an applied call costs: the engine's two estimates, without running it.
   */
  lemma PreviewedContracts(rules: Rules, l: Accounts, engine: Option<ContractEngine>, now: int64,
                           txs: seq<Transaction>, i: nat)
    requires LedgerOk(l) && i < |txs| && |txs[i].from| > 0 && |txs[i].to| > 0
    requires Authenticate(rules, Get(l, txs[i].from), txs[i]).Ok? && txs[i].nonce == Get(l, txs[i].from).nonce
    requires PayloadCodec.DecodePayload(txs[i].payload).Some?
    requires PayloadOf(txs[i]).ContractDeploy? || PayloadOf(txs[i]).ContractCall?
    ensures var r, p := ApplyTx(rules, l, StepsOf(engine, Preview, now, txs)[i]), PayloadOf(txs[i]);
      && (r == Err(NoEngine) <==> engine.None?)
      && (r == Err(ContractFailed) <==>
            && engine.Some? && p.ContractDeploy?
            && !(Contracts.WASM_MAGIC <= p.wasmCode
                 && forall k :: 0 <= k < |p.wasmCode| ==> !Contracts.FloatOpcode(p.wasmCode[k])))
      && (r.Ok? && p.ContractCall? ==>
            ChargeOf(rules, l, StepsOf(engine, Preview, now, txs)[i])
              == rules.params.CostOf(Len64(Encoding.TxBytes(txs[i])), engine.value.instructions(p.contract),
                   engine.value.stateWrites(p.contract)))
  {
    hide PayloadCodec.DecodePayload, ApplyTx, Authenticate, Encoding.TxBytes, Rc.Params.CostOf, ChargeOf;
    var s := StepOf(engine, Preview, now, txs, i);
    AuthenticatesExactly(rules, Get(l, txs[i].from), txs[i]);
    RefusedExactly(rules, l, s);
    if ApplyTx(rules, l, s).Ok? {
      ChargeIsCost(rules, l, s);
    }
  }

  datatype BlockError = BadTransaction(error: TxError) | RootMismatch | RootMismatchAfterApply

  function BlockTime(rules: Rules, window: seq<int64>, block: Block): int64 {
    Rc.EffectiveTime(block.timestamp, window, rules.params.maxSkewSec)
  }

  /** Transactions are executed at the time within the skew of the window's median that is nearest to the block's. */
  lemma BlockTimeIsNearest(rules: Rules, window: seq<int64>, block: Block, x: int64)
    ensures var at, m, skew := BlockTime(rules, window, block), Rc.Median(window), rules.params.maxSkewSec;
      && (window == [] ==> at == block.timestamp)
      && (window != [] && skew >= 0 && -TWO63 <= m - skew && m + skew < TWO63 ==>
            && m - skew <= at <= m + skew
            && (m - skew <= x <= m + skew ==>
                  Rc.Distance(block.timestamp, at) <= Rc.Distance(block.timestamp, x)))
  {
    hide Rc.EffectiveTime, Rc.Median;
    Rc.EffectiveIsNearest(block.timestamp, window, rules.params.maxSkewSec);
  }

  function Execute(rules: Rules, l: Accounts, window: seq<int64>, block: Block, engine: Option<ContractEngine>,
                   mode: Mode): Result<Accounts, TxError> {
    ApplyAll(rules, l, StepsOf(engine, mode, BlockTime(rules, window, block), block.transactions))
  }

  ghost function RootOf(rules: Rules, l: Accounts): Hash { StateRoot.StateRoot(rules.crypto.sha, l) }

  ghost function PreviewResult(rules: Rules, l: Accounts, window: seq<int64>, block: Block,
                               engine: Option<ContractEngine>): Result<Hash, BlockError> {
    match Execute(rules, l, window, block, engine, Preview)
    case Err(e) => Err(BadTransaction(e))
    case Ok(after) => Ok(RootOf(rules, after))
  }

  ghost function ApplyResult(rules: Rules, l: Accounts, window: seq<int64>, block: Block,
                             engine: Option<ContractEngine>, reports: nat -> Report): Result<Accounts, BlockError> {
    match PreviewResult(rules, l, window, block, engine)
    case Err(e) => Err(e)
    case Ok(root) =>
      if block.stateRoot != root then Err(RootMismatch)
      else
        match Execute(rules, l, window, block, engine, Commit(reports))
        case Err(e) => Err(BadTransaction(e))
        case Ok(after) => if RootOf(rules, after) != block.stateRoot then Err(RootMismatchAfterApply) else Ok(after)
  }

  function BlockHash(rules: Rules, block: Block): Hash { rules.crypto.sha(Encoding.BlockBytesForHash(block)) }

  /** Without a collision on their hashed bytes, blocks with one hash differ in their signatures at most. */
  lemma BlockHashCommits(rules: Rules, a: Block, b: Block)
    requires BlockHash(rules, a) == BlockHash(rules, b) && |Encoding.BlockBytesForHash(a)| <= MAX64
    requires rules.crypto.sha(Encoding.BlockBytesForHash(a)) == rules.crypto.sha(Encoding.BlockBytesForHash(b)) ==>
      Encoding.BlockBytesForHash(a) == Encoding.BlockBytesForHash(b)
    ensures a.transactions == b.transactions && a.(validatorSigs := []) == b.(validatorSigs := [])
  {
    hide Encoding.BlockBytesForHash;
    Encoding.HashedBytesIdentify(a, b);
  }

  predicate TxFits(tx: Transaction) { FitsMemory(tx.from) && FitsMemory(tx.to) && FitsMemory(tx.payload) }

  predicate BlockFits(block: Block) { forall i :: 0 <= i < |block.transactions| ==> TxFits(block.transactions[i]) }

  // ----- one transaction on an overlay -----

  /** Credits refreshed to `now`, as the code does it: three assignments to the sender. */
  method RefreshSender(params: Rc.Params, sender: Account, now: int64) returns (refreshed: Account)
    ensures refreshed == sender.(rc := params.RegenRC(sender.rc, sender.stake, sender.lastTime, now),
                                 lastTime := now, rcMax := params.RCMax(sender.stake))
  {
    refreshed := sender;
    var rc, at := params.Regen(refreshed.rc, refreshed.stake, refreshed.lastTime, now);
    refreshed := refreshed.(rc := rc, lastTime := at);
    refreshed := refreshed.(rcMax := params.RCMax(refreshed.stake));
  }

  lemma BatchSound(batch: Batch)
    requires batch.Valid()
    ensures LedgerOk(batch.Accounts())
  {
  }

  /** The sender after its payload, and the work it is to be charged for. */
  datatype Work = Work(sender: Account, instructions: uint64, stateWrites: uint64)

  class State {
    const store: Store
    const dag: DAG
    const rules: Rules

    constructor (store: Store, dag: DAG, rules: Rules)
      ensures this.store == store && this.dag == dag && this.rules == rules
    {
      this.store := store;
      this.dag := dag;
      this.rules := rules;
    }

    ghost predicate Valid()
      reads store
    {
      store.Valid() && 0 <= rules.params.windowN < TWO32
    }

    /** The switch over the payload: the sender so far, and everything else written to the batch. */
    method ApplyPayload(batch: Batch, debited: Account, tx: Transaction, p: Payload, outcome: ContractOutcome)
      returns (r: Result<Work, TxError>)
      requires batch.Valid() && TxFits(tx) && PayloadCodec.PayloadWithin(p, MAX_ALLOC)
      modifies batch
      ensures batch.Valid() && batch.Window() == old(batch.Window())
      ensures PayloadEffect(old(batch.Accounts()), debited, tx, p, outcome)
           == match r {
                case Err(e) => Err(e)
                case Ok(w) => Ok(Effect(w.sender, batch.Accounts(), w.instructions, w.stateWrites))
              }
      ensures r.Ok? ==> forall b ::
                Get(batch.Accounts(), b)
                  == var was := old(Get(batch.Accounts(), b));
                     if p.Transfer? && b == p.to then was.(balance := Wrap64(was.balance + p.amount))
                     else if p.ContractDeploy? && b == tx.to then was.(code := p.wasmCode)
                     else was
    {
      hide WellFormed, LedgerOf, WindowOf, Get, Put, Wrap64;
      BatchSound(batch);
      EffectMeans(batch.Accounts(), debited, tx, p, outcome);
      var sender := debited;
      match p {
        case Transfer(to, amount) =>
          if sender.balance < amount { return Err(InsufficientBalance); }
          sender := sender.(balance := sender.balance - amount);
          var receiver := batch.GetAccount(to);
          receiver := receiver.(balance := Wrap64(receiver.balance + amount));
          batch.SetAccount(receiver);
          r := Ok(Work(sender, 0, 2));
        case StakeDelegate(_, amount) =>
          if sender.balance < amount { return Err(InsufficientBalance); }
          sender := sender.(balance := sender.balance - amount);
          sender := sender.(stake := Wrap64(sender.stake + amount));
          r := Ok(Work(sender, 0, 1));
        case StakeUndelegate(_, amount) =>
          if sender.stake < amount { return Err(InsufficientStake); }
          sender := sender.(stake := sender.stake - amount);
          sender := sender.(balance := Wrap64(sender.balance + amount));
          r := Ok(Work(sender, 0, 1));
        case ContractDeploy(code, _) =>
          if outcome.Unconfigured? { return Err(NoEngine); }
          if outcome.Rejected? { return Err(ContractFailed); }
          var contractAcct := batch.GetAccount(tx.to);
          contractAcct := contractAcct.(code := code);
          batch.SetAccount(contractAcct);
          r := Ok(Work(sender, 0, 1));
        case ContractCall(_, _, _) =>
          if outcome.Unconfigured? { return Err(NoEngine); }
          if outcome.Rejected? { return Err(ContractFailed); }
          r := Ok(Work(sender, outcome.instructions, outcome.stateWrites));
        case GovernanceProposal(_, _, _, _) => r := Ok(Work(sender, 0, 1));
        case GovernanceVote(_, _) => r := Ok(Work(sender, 0, 1));
      }
    }

    /** The sender, its payload decoded and its signature checked; a first key is registered. */
    method LoadSender(batch: Batch, tx: Transaction) returns (r: Result<Sender, TxError>)
      requires batch.Valid() && TxFits(tx)
      ensures r == Authenticate(rules, Get(batch.Accounts(), tx.from), tx)
      ensures r.Ok? ==> AccountFits(r.value.account) && PayloadCodec.PayloadWithin(r.value.payload, MAX_ALLOC)
    {
      hide WellFormed, LedgerOf, PayloadCodec.DecodePayload, PayloadCodec.PayloadWithin, Auth.ResolveSenderPubKey;
      hide Auth.SignatureValid;
      var sender := batch.GetAccount(tx.from);
      var payloadEnv := PayloadCodec.DecodePayloadBytes(tx.payload);
      if payloadEnv.None? {
        return Err(BadPayload);
      }
      PayloadFits(tx);
      var key := Auth.ResolveSenderPubKey(rules.crypto, tx, sender.pubKey, payloadEnv.value.senderPubKey);
      if key.None? {
        return Err(BadKey);
      }
      if !Auth.SignatureValid(rules.crypto, tx, key.value.pubKey) {
        return Err(BadSignature);
      }
      if key.value.register {
        sender := sender.(pubKey := key.value.pubKey);
      }
      r := Ok(Sender(sender, payloadEnv.value.payload));
    }

    /** The end of applyTransactionWithKV: the charge, the nonce and the sender's write. */
    method SettleSender(batch: Batch, tx: Transaction, work: Work) returns (err: Option<TxError>)
      requires batch.Valid() && AccountFits(work.sender)
      modifies batch
      ensures batch.Valid() && batch.Window() == old(batch.Window())
      ensures Settle(rules, tx, Effect(work.sender, old(batch.Accounts()), work.instructions, work.stateWrites))
           == match err { case Some(e) => Err(e) case None => Ok(batch.Accounts()) }
    {
      hide WellFormed, LedgerOf, WindowOf, Rc.Params.RCMax, Rc.Params.CostOf, Encoding.TxBytes;
      var sizeBytes := Encoding.MarshalTransaction(tx);
      var sender := work.sender;
      var cost := rules.params.Cost(Len64(sizeBytes), work.instructions, work.stateWrites);
      if sender.rc < cost {
        return Some(InsufficientRC);
      }
      sender := sender.(rc := sender.rc - cost);
      sender := sender.(nonce := Wrap64(sender.nonce + 1));
      sender := sender.(rcMax := rules.params.RCMax(sender.stake));
      batch.SetAccount(sender);
      err := None;
    }

    method ApplyTransaction(batch: Batch, tx: Transaction, now: int64, engine: Option<ContractEngine>, mode: Mode,
                            i: nat)
      returns (err: Option<TxError>)
      requires batch.Valid() && TxFits(tx)
      modifies batch
      ensures batch.Valid() && batch.Window() == old(batch.Window())
      ensures ApplyTx(rules, old(batch.Accounts()), Step(tx, now, OutcomeOf(engine, mode, i, tx)))
           == match err { case Some(e) => Err(e) case None => Ok(batch.Accounts()) }
    {
      hide WellFormed, LedgerOf, WindowOf, Rc.Params.RegenRC, Rc.Params.RCMax, PayloadEffect, Settle, Outcome;
      hide PayloadCodec.DecodePayload, PayloadCodec.PayloadWithin, Auth.ResolveSenderPubKey, Auth.SignatureValid;
      if tx.from == [] || tx.to == [] {
        return Some(InvalidParties);
      }
      var loaded := LoadSender(batch, tx);
      if loaded.Err? {
        return Some(loaded.error);
      }
      var p := loaded.value.payload;
      var sender := RefreshSender(rules.params, loaded.value.account, now);
      if sender.nonce != tx.nonce {
        return Some(InvalidNonce);
      }
      SenderStays(batch.Accounts(), sender, tx, p, Outcome(engine, mode, i, p));
      var worked := ApplyPayload(batch, sender, tx, p, Outcome(engine, mode, i, p));
      if worked.Err? {
        return Some(worked.error);
      }
      err := SettleSender(batch, tx, worked.value);
    }

    /** A new overlay on the store, which shows the store. */
    method NewBatch() returns (batch: Batch)
      requires Valid()
      ensures fresh(batch) && batch.store == store && batch.Merged() == store.kv && batch.Valid()
    {
      batch := new Batch(store);
      assert store.kv + map[] == store.kv;
    }

    /** The transaction loop of PreviewBlock and ApplyBlock. */
    method ExecuteTransactions(batch: Batch, txs: seq<Transaction>, now: int64, engine: Option<ContractEngine>,
                               mode: Mode)
      returns (err: Option<TxError>)
      requires batch.Valid() && forall i :: 0 <= i < |txs| ==> TxFits(txs[i])
      modifies batch
      ensures batch.Valid() && batch.Window() == old(batch.Window())
      ensures ApplyAll(rules, old(batch.Accounts()), StepsOf(engine, mode, now, txs))
           == match err { case Some(e) => Err(e) case None => Ok(batch.Accounts()) }
    {
      hide WellFormed, LedgerOf, WindowOf, ApplyTx, ApplyAll, OutcomeOf, TxFits;
      ghost var l, steps := batch.Accounts(), StepsOf(engine, mode, now, txs);
      RunStart(rules, l, steps);
      for i := 0 to |txs|
        invariant batch.Valid() && batch.Window() == old(batch.Window())
        invariant ApplyAll(rules, l, steps[..i]) == Ok(batch.Accounts())
      {
        RunStep(rules, l, steps, i, batch.Accounts());
        err := ApplyTransaction(batch, txs[i], now, engine, mode, i);
        if err.Some? {
          return;
        }
      }
      assert steps[..|txs|] == steps;
      err := None;
    }

    /** Nothing but a fresh overlay is written. */
    method PreviewBlock(block: Block, engine: Option<ContractEngine>) returns (r: Result<Hash, BlockError>)
      requires Valid() && BlockFits(block)
      ensures r == PreviewResult(rules, store.Accounts(), store.Window(), block, engine)
    {
      hide WellFormed, LedgerOf, WindowOf, Execute, RootOf, StateRoot.StateRoot;
      var lastTimestamps := store.GetLastTimestamps();
      var effectiveTime := Rc.EffectiveTime(block.timestamp, lastTimestamps, rules.params.maxSkewSec);
      var batch := NewBatch();
      var err := ExecuteTransactions(batch, block.transactions, effectiveTime, engine, Preview);
      ExecutedAt(rules, store.Accounts(), store.Window(), block, engine, Preview);
      if err.Some? {
        return Err(BadTransaction(err.value));
      }
      var root := StateRoot.ComputeStateRoot(rules.crypto.sha, batch.Merged());
      RootIs(rules, batch.Accounts());
      r := Ok(root);
    }

    /** The end of ApplyBlock: the timestamp window, the root check, the block and the commit. */
    method FinishBlock(batch: Batch, block: Block) returns (r: Result<Hash, BlockError>)
      requires Valid() && batch.Valid() && batch.store == store
      requires batch.Window() == store.Window()
      modifies batch, store
      ensures store.Valid()
      ensures r == if RootOf(rules, old(batch.Accounts())) != block.stateRoot then Err(RootMismatchAfterApply)
          else Ok(block.stateRoot)
      ensures r.Err? ==> store.kv == old(store.kv)
      ensures r.Ok? ==> Committed(old(batch.Accounts()), old(batch.Window()), block)
    {
      hide WellFormed, LedgerOf, WindowOf, StateRoot.StateRoot, Rc.NextWindow;
      hide TimestampCodec.BigEndian, Encoding.BlockBytes, Encoding.BlockBytesForHash, Ascii;
      var lastTimestamps := store.GetLastTimestamps();
      lastTimestamps := lastTimestamps + [block.timestamp];
      if |lastTimestamps| > rules.params.windowN {
        lastTimestamps := lastTimestamps[|lastTimestamps| - rules.params.windowN..];
      }
      WindowTrimmed(store.Window(), block.timestamp, rules.params.windowN);
      batch.SetLastTimestamps(lastTimestamps);
      var root := StateRoot.ComputeStateRoot(rules.crypto.sha, batch.Merged());
      RootIs(rules, batch.Accounts());
      if root != block.stateRoot {
        return Err(RootMismatchAfterApply);
      }
      KeysApart(block, rules);
      var bytes := Encoding.MarshalBlockForHash(block);
      batch.SetBlock(block, rules.crypto.sha(bytes));
      batch.Commit();
      r := Ok(root);
    }

    /** The store after a block that led from earlier window to accounts l. */
    ghost predicate Committed(l: Accounts, window: seq<int64>, block: Block)
      reads store
      requires Valid()
    {
      var key, heightKey := Ascii("block/") + BlockHash(rules, block),
        Ascii("block_height/") + TimestampCodec.BigEndian(block.height, 8);
      && store.Accounts() == l
      && store.Window() == Rc.NextWindow(window, block.timestamp, rules.params.windowN)
      && key in store.kv && store.kv[key] == Encoding.BlockBytes(block)
      && heightKey in store.kv && store.kv[heightKey] == BlockHash(rules, block)
    }

    method ApplyBlock(block: Block, engine: Option<ContractEngine>, reports: nat -> Report)
      returns (r: Result<Hash, BlockError>)
      requires Valid() && BlockFits(block)
      modifies store, dag
      ensures Valid()
      ensures r == match ApplyResult(rules, old(store.Accounts()), old(store.Window()), block, engine, reports) {
                     case Err(e) => Err(e)
                     case Ok(_) => Ok(block.stateRoot)
                   }
      ensures r.Err? ==> store.kv == old(store.kv) && dag.Value() == old(dag.Value())
      ensures r.Ok? ==>
        Committed(ApplyResult(rules, old(store.Accounts()), old(store.Window()), block, engine, reports).value,
          old(store.Window()), block)
      ensures r.Ok? ==> VersionAdded(old(dag.Value()), block, dag.Value())
    {
      hide WellFormed, LedgerOf, WindowOf, Execute, RootOf, StateRoot.StateRoot, Added;
      var previewRoot := PreviewBlock(block, engine);
      if previewRoot.Err? {
        return previewRoot;
      }
      if block.stateRoot != previewRoot.value {
        return Err(RootMismatch);
      }
      var lastTimestamps := store.GetLastTimestamps();
      var effectiveTime := Rc.EffectiveTime(block.timestamp, lastTimestamps, rules.params.maxSkewSec);
      var batch := NewBatch();
      var err := ExecuteTransactions(batch, block.transactions, effectiveTime, engine, Commit(reports));
      ExecutedAt(rules, store.Accounts(), store.Window(), block, engine, Commit(reports));
      if err.Some? {
        return Err(BadTransaction(err.value));
      }
      r := FinishBlock(batch, block);
      if r.Err? {
        return;
      }
      var added := dag.AddNode(StateNode(r.value, [block.prevHash], block.height));
    }
  }

  lemma KeysApart(block: Block, rules: Rules)
    ensures Ascii("block/") + BlockHash(rules, block)
         != Ascii("block_height/") + TimestampCodec.BigEndian(block.height, 8)
  {
    hide Encoding.BlockBytesForHash, TimestampCodec.BigEndian, Ascii;
    KeysSpelled();
    BlockKeysApart(BlockHash(rules, block), block.height);
  }

  lemma RecordStored(s: State, l: Accounts, window: seq<int64>, block: Block)
    requires s.Valid() && s.Committed(l, window, block)
    ensures var hash := s.rules.crypto.sha(Encoding.BlockBytesForHash(block));
      && Ascii("block/") + hash in s.store.kv && s.store.kv[Ascii("block/") + hash] == Encoding.BlockBytes(block)
  {
    hide WellFormed, LedgerOf, WindowOf, Encoding.BlockBytes, Encoding.BlockBytesForHash, TimestampCodec.BigEndian;
    hide Ascii;
  }

  /** The graph gains the block's root, below the previous block's hash, unless it knows the root already. */
  ghost predicate VersionAdded(g: Graph, block: Block, after: Graph) {
    if block.stateRoot in g.nodes then after == g
    else Added(g, StateNode(block.stateRoot, [block.prevHash], block.height), after)
  }

  lemma RunStart(rules: Rules, l: Accounts, steps: seq<Step>)
    ensures ApplyAll(rules, l, steps[..0]) == Ok(l)
  {
  }

  lemma RunStep(rules: Rules, l: Accounts, steps: seq<Step>, i: nat, mid: Accounts)
    requires i < |steps| && ApplyAll(rules, l, steps[..i]) == Ok(mid)
    ensures ApplyAll(rules, l, steps[..i + 1]) == ApplyTx(rules, mid, steps[i])
    ensures ApplyTx(rules, mid, steps[i]).Err? ==> ApplyAll(rules, l, steps) == ApplyTx(rules, mid, steps[i])
  {
    hide ApplyTx;
    assert steps == steps[..i] + steps[i..] && steps[..i + 1] == steps[..i] + [steps[i]];
    ApplyAllConcat(rules, l, steps[..i], steps[i..]);
    ApplyAllConcat(rules, l, steps[..i], [steps[i]]);
    ApplyOne(rules, mid, steps[i]);
  }

  lemma ExecutedAt(rules: Rules, l: Accounts, window: seq<int64>, block: Block, engine: Option<ContractEngine>,
                   mode: Mode)
    ensures Execute(rules, l, window, block, engine, mode)
         == ApplyAll(rules, l,
           StepsOf(engine, mode, Rc.EffectiveTime(block.timestamp, window, rules.params.maxSkewSec),
             block.transactions))
  {
  }

  lemma RootIs(rules: Rules, l: Accounts)
    ensures RootOf(rules, l) == StateRoot.StateRoot(rules.crypto.sha, l)
  {
  }

  lemma WindowTrimmed(window: seq<int64>, ts: int64, n: nat)
    ensures var longer := window + [ts];
      (if |longer| > n then longer[|longer| - n..] else longer) == Rc.NextWindow(window, ts, n)
    ensures |Rc.NextWindow(window, ts, n)| <= n
  {
  }

  /** A payload changes no byte string of the sender's account. */
  lemma SenderStays(l: Accounts, sender: Account, tx: Transaction, p: Payload, outcome: ContractOutcome)
    requires AccountFits(sender)
    ensures PayloadEffect(l, sender, tx, p, outcome).Ok? ==>
        AccountFits(PayloadEffect(l, sender, tx, p, outcome).value.sender)
  {
  }

  lemma PayloadFits(tx: Transaction)
    requires TxFits(tx) && PayloadCodec.DecodePayload(tx.payload).Some?
    ensures PayloadCodec.PayloadWithin(PayloadCodec.DecodePayload(tx.payload).value.payload, MAX_ALLOC)
  {
    hide PayloadCodec.DecodePayload;
    PayloadCodec.DecodedWithin(tx.payload);
  }

  // ----- preview and commit -----

  /** Two engine answers that make no difference to a payload. */
  predicate Interchangeable(p: Payload, a: ContractOutcome, b: ContractOutcome) {
    match p
    case ContractDeploy(_, _) => (a.Ran? <==> b.Ran?) && (a.Unconfigured? <==> b.Unconfigured?)
    case ContractCall(_, _, _) => a == b
    case _ => true
  }

  lemma SameApplication(rules: Rules, l: Accounts, tx: Transaction, now: int64, a: ContractOutcome, b: ContractOutcome)
    requires PayloadCodec.DecodePayload(tx.payload).Some? ==> Interchangeable(PayloadOf(tx), a, b)
    ensures ApplyTx(rules, l, Step(tx, now, a)) == ApplyTx(rules, l, Step(tx, now, b))
  {
    hide PayloadCodec.DecodePayload, Auth.ResolveSenderPubKey, Auth.SignatureValid, Settle, Refresh;
  }

  /** Contracts deploy when their code is valid, and calls cost what was estimated. */
  ghost predicate ReportsAgree(engine: Option<ContractEngine>, reports: nat -> Report, txs: seq<Transaction>) {
    engine.None? || forall i :: 0 <= i < |txs| && PayloadCodec.DecodePayload(txs[i].payload).Some? ==>
      match PayloadOf(txs[i])
      case ContractDeploy(code, _) => Contracts.ValidateWasmCode(code) <==> reports(i).Finished?
      case ContractCall(c, _, _) => reports(i) == Finished(engine.value.instructions(c), engine.value.stateWrites(c))
      case _ => true
  }

  predicate ContractFree(txs: seq<Transaction>) {
    forall i :: 0 <= i < |txs| && PayloadCodec.DecodePayload(txs[i].payload).Some? ==>
      !PayloadOf(txs[i]).ContractDeploy? && !PayloadOf(txs[i]).ContractCall?
  }

  lemma ContractFreeAgrees(engine: Option<ContractEngine>, reports: nat -> Report, txs: seq<Transaction>)
    requires ContractFree(txs)
    ensures ReportsAgree(engine, reports, txs)
  {
    hide PayloadCodec.DecodePayload;
  }

  lemma {:induction false} SameRun(rules: Rules, l: Accounts, txs: seq<Transaction>, now: int64,
                                     engine: Option<ContractEngine>, reports: nat -> Report, k: nat)
    requires ReportsAgree(engine, reports, txs) && k <= |txs|
    ensures ApplyAll(rules, l, StepsOf(engine, Preview, now, txs)[k..])
        == ApplyAll(rules, l, StepsOf(engine, Commit(reports), now, txs)[k..])
    decreases |txs| - k
  {
    hide ApplyTx, PayloadCodec.DecodePayload, OutcomeOf;
    var ss, tt := StepsOf(engine, Preview, now, txs), StepsOf(engine, Commit(reports), now, txs);
    if k < |txs| {
      SameStep(rules, l, txs, now, engine, reports, k);
      assert ss[k..][0] == ss[k] && tt[k..][0] == tt[k];
      assert ss[k..][1..] == ss[k + 1..] && tt[k..][1..] == tt[k + 1..];
      if ApplyTx(rules, l, ss[k]).Ok? {
        SameRun(rules, ApplyTx(rules, l, ss[k]).value, txs, now, engine, reports, k + 1);
      }
    }
  }

  lemma SameStep(rules: Rules, l: Accounts, txs: seq<Transaction>, now: int64, engine: Option<ContractEngine>,
                 reports: nat -> Report, k: nat)
    requires ReportsAgree(engine, reports, txs) && k < |txs|
    ensures ApplyTx(rules, l, StepOf(engine, Preview, now, txs, k))
        == ApplyTx(rules, l, StepOf(engine, Commit(reports), now, txs, k))
  {
    hide ApplyTx, PayloadCodec.DecodePayload;
    SameApplication(rules, l, txs[k], now, OutcomeOf(engine, Preview, k, txs[k]),
      OutcomeOf(engine, Commit(reports), k, txs[k]));
  }

  /**
   * When the engine's reports agree with what the preview was told, a block is committed
   * exactly when its preview succeeds with the root it carries, what is committed is what was
   * previewed, and the second root check never fires.
   */
  lemma CommitFollowsPreview(rules: Rules, l: Accounts, window: seq<int64>, block: Block,
                             engine: Option<ContractEngine>, reports: nat -> Report)
    requires ReportsAgree(engine, reports, block.transactions)
    ensures var preview, applied := PreviewResult(rules, l, window, block, engine),
        ApplyResult(rules, l, window, block, engine, reports);
      && (applied.Ok? <==> preview == Ok(block.stateRoot))
      && applied != Err(RootMismatchAfterApply)
      && (preview.Err? ==> applied.Err? && applied.error == preview.error)
      && (applied.Ok? ==> Execute(rules, l, window, block, engine, Preview) == Ok(applied.value))
  {
    hide StateRoot.StateRoot, ApplyAll;
    var txs, now := block.transactions, BlockTime(rules, window, block);
    SameRun(rules, l, txs, now, engine, reports, 0);
    var ss, tt := StepsOf(engine, Preview, now, txs), StepsOf(engine, Commit(reports), now, txs);
    assert ss[0..] == ss && tt[0..] == tt;
  }

  // ----- runs of blocks -----

  datatype Applied = Applied(block: Block, engine: Option<ContractEngine>, reports: nat -> Report)

  datatype Position = Position(accounts: Accounts, window: seq<int64>)

  /** A run of ApplyBlock calls that all succeed. */
  ghost function ApplyBlocks(rules: Rules, start: Position, blocks: seq<Applied>): (r: Option<Position>)
    requires rules.params.windowN >= 0
    decreases |blocks|
  {
    if blocks == [] then Some(start)
    else
      match ApplyBlocks(rules, start, blocks[..|blocks| - 1])
      case None => None
      case Some(at) =>
        var last := blocks[|blocks| - 1];
        match ApplyResult(rules, at.accounts, at.window, last.block, last.engine, last.reports)
        case Err(_) => None
        case Ok(after) => Some(Position(after, Rc.NextWindow(at.window, last.block.timestamp, rules.params.windowN)))
  }

  function TimesOf(blocks: seq<Applied>): seq<int64> {
    seq(|blocks|, i requires 0 <= i < |blocks| => blocks[i].block.timestamp)
  }

  function TransactionsOf(blocks: seq<Applied>): seq<Transaction> {
    if blocks == [] then []
    else TransactionsOf(blocks[..|blocks| - 1]) + blocks[|blocks| - 1].block.transactions
  }

  /** Every transaction of a run of blocks, with its effective time and the engine's report. */
  function StepsOfBlocks(rules: Rules, window: seq<int64>, blocks: seq<Applied>): (steps: seq<Step>)
    requires rules.params.windowN >= 0
    decreases |blocks|
  {
    if blocks == [] then []
    else
      var init, last := blocks[..|blocks| - 1], blocks[|blocks| - 1];
      var now := BlockTime(rules, Rc.WindowAfter(window, TimesOf(init), rules.params.windowN), last.block);
      StepsOfBlocks(rules, window, init) + StepsOf(last.engine, Commit(last.reports), now, last.block.transactions)
  }

  /** A run of blocks is one run of their transactions. */
  lemma {:induction false} BlocksAreOneRun(rules: Rules, start: Position, blocks: seq<Applied>)
    requires rules.params.windowN >= 0 && ApplyBlocks(rules, start, blocks).Some?
    ensures var end, steps := ApplyBlocks(rules, start, blocks).value, StepsOfBlocks(rules, start.window, blocks);
      && ApplyAll(rules, start.accounts, steps) == Ok(end.accounts)
      && end.window == Rc.WindowAfter(start.window, TimesOf(blocks), rules.params.windowN)
    decreases |blocks|
  {
    hide ApplyAll, StepsOf, PreviewResult, RootOf, Rc.NextWindow, Rc.EffectiveTime;
    if blocks == [] {
      RunStart(rules, start.accounts, []);
    } else {
      var init, last := blocks[..|blocks| - 1], blocks[|blocks| - 1];
      BlocksAreOneRun(rules, start, init);
      var at := ApplyBlocks(rules, start, init).value;
      var steps := StepsOf(last.engine, Commit(last.reports), BlockTime(rules, at.window, last.block),
        last.block.transactions);
      ApplyAllConcat(rules, start.accounts, StepsOfBlocks(rules, start.window, init), steps);
      assert TimesOf(blocks)[..|blocks| - 1] == TimesOf(init);
    }
  }

  lemma {:induction false} StepsAreTransactions(rules: Rules, window: seq<int64>, blocks: seq<Applied>)
    requires rules.params.windowN >= 0
    ensures |StepsOfBlocks(rules, window, blocks)| == |TransactionsOf(blocks)|
    ensures forall k :: 0 <= k < |TransactionsOf(blocks)| ==>
        StepsOfBlocks(rules, window, blocks)[k].tx == TransactionsOf(blocks)[k]
    decreases |blocks|
  {
    hide OutcomeOf, BlockTime, Rc.WindowAfter;
    if blocks != [] {
      StepsAreTransactions(rules, window, blocks[..|blocks| - 1]);
    }
  }

  /** No transaction of a run of blocks repeats another's sender and nonce. */
  lemma BlocksNeverReplay(rules: Rules, start: Position, blocks: seq<Applied>, i: nat, j: nat)
    requires rules.params.windowN >= 0 && LedgerOk(start.accounts) && ApplyBlocks(rules, start, blocks).Some?
    requires i < j < |TransactionsOf(blocks)| <= MAX64
    requires TransactionsOf(blocks)[i].from == TransactionsOf(blocks)[j].from
    ensures TransactionsOf(blocks)[i].nonce != TransactionsOf(blocks)[j].nonce
  {
    hide ApplyAll, ApplyBlocks, StepsOfBlocks, TransactionsOf;
    BlocksAreOneRun(rules, start, blocks);
    StepsAreTransactions(rules, start.window, blocks);
    NoReplay(rules, start.accounts, StepsOfBlocks(rules, start.window, blocks), i, j);
  }

  /** Blocks create no balance or stake, and lose only what senders transfer to themselves. */
  lemma BlocksConserve(rules: Rules, start: Position, blocks: seq<Applied>)
    requires rules.params.windowN >= 0 && LedgerOk(start.accounts) && ApplyBlocks(rules, start, blocks).Some?
    ensures var end := ApplyBlocks(rules, start, blocks).value;
      && Total(end.accounts) <= Total(start.accounts)
      && (Total(start.accounts) <= MAX64 ==>
            Total(end.accounts) == Total(start.accounts) - Losses(StepsOfBlocks(rules, start.window, blocks)))
  {
    hide ApplyAll, ApplyBlocks, StepsOfBlocks, Total, Losses;
    BlocksAreOneRun(rules, start, blocks);
    RunConservation(rules, start.accounts, StepsOfBlocks(rules, start.window, blocks));
  }

  /** An account's nonce counts its transactions in all the blocks applied. */
  lemma BlocksCountNonces(rules: Rules, start: Position, blocks: seq<Applied>, a: Address)
    requires rules.params.windowN >= 0 && LedgerOk(start.accounts) && ApplyBlocks(rules, start, blocks).Some?
    ensures Get(ApplyBlocks(rules, start, blocks).value.accounts, a).nonce
         == Wrap64(Get(start.accounts, a).nonce + CountFrom(StepsOfBlocks(rules, start.window, blocks), a))
  {
    hide ApplyAll, ApplyBlocks, StepsOfBlocks, CountFrom;
    BlocksAreOneRun(rules, start, blocks);
    NonceCounts(rules, start.accounts, StepsOfBlocks(rules, start.window, blocks), a);
  }

  /** The stored window holds the raw timestamps of the last windowN blocks. */
  lemma BlocksKeepWindow(rules: Rules, start: Position, blocks: seq<Applied>)
    requires rules.params.windowN >= 0 && ApplyBlocks(rules, start, blocks).Some?
        && |start.window| <= rules.params.windowN
    ensures ApplyBlocks(rules, start, blocks).value.window
        == Rc.LastOf(start.window + TimesOf(blocks), rules.params.windowN)
  {
    hide ApplyAll, ApplyBlocks, StepsOfBlocks, Rc.LastOf;
    BlocksAreOneRun(rules, start, blocks);
    Rc.WindowIsLastTimes(start.window, TimesOf(blocks), rules.params.windowN);
  }

  lemma {:induction false} PrefixApplies(rules: Rules, start: Position, blocks: seq<Applied>, k: nat)
    requires rules.params.windowN >= 0 && ApplyBlocks(rules, start, blocks).Some? && k <= |blocks|
    ensures ApplyBlocks(rules, start, blocks[..k]).Some?
    decreases |blocks|
  {
    hide ApplyResult, Rc.NextWindow;
    if k == |blocks| {
      assert blocks[..k] == blocks;
    } else {
      var init := blocks[..|blocks| - 1];
      assert init[..k] == blocks[..k];
      PrefixApplies(rules, start, init, k);
    }
  }

  /** Each block of the run passes the proposal's timestamp check against the window stored before it. */
  ghost predicate TimesAccepted(rules: Rules, start: Position, blocks: seq<Applied>)
    requires rules.params.windowN >= 0
  {
    forall k :: 0 <= k < |blocks| && ApplyBlocks(rules, start, blocks[..k]).Some? ==>
      Rc.TimestampAccepted(blocks[k].block.timestamp, ApplyBlocks(rules, start, blocks[..k]).value.window,
        rules.params.maxSkewSec)
  }

  /** After k blocks whose times were accepted no entry of the window has drifted by more than k times the skew. */
  lemma BlocksDrift(rules: Rules, start: Position, blocks: seq<Applied>, lo: int, hi: int)
    requires rules.params.windowN >= 1 && rules.params.maxSkewSec >= 0
    requires ApplyBlocks(rules, start, blocks).Some? && TimesAccepted(rules, start, blocks)
    requires start.window != [] && Rc.Within(start.window, lo, hi)
    requires var drift := |blocks| * rules.params.maxSkewSec; -TWO63 <= lo - drift && hi + drift < TWO63
    ensures var end, drift := ApplyBlocks(rules, start, blocks).value.window, |blocks| * rules.params.maxSkewSec;
      end != [] && Rc.Within(end, lo - drift, hi + drift)
  {
    hide ApplyAll, ApplyBlocks, StepsOfBlocks, Rc.WindowAfter, Rc.TimestampAccepted, Rc.Within;
    var times, n := TimesOf(blocks), rules.params.windowN;
    forall k | 0 <= k < |times|
      ensures Rc.TimestampAccepted(times[k], Rc.WindowAfter(start.window, times[..k], n), rules.params.maxSkewSec)
    {
      PrefixApplies(rules, start, blocks, k);
      BlocksAreOneRun(rules, start, blocks[..k]);
      assert TimesOf(blocks[..k]) == times[..k];
    }
    BlocksAreOneRun(rules, start, blocks);
    Rc.WindowDrift(start.window, times, n, rules.params.maxSkewSec, lo, hi);
  }

  /** The token bucket over a run of blocks: charges stay within the starting credits and the time the blocks add. */
  lemma BlocksTokenBucket(rules: Rules, start: Position, blocks: seq<Applied>, a: Address)
    requires rules.params.windowN >= 0 && rules.params.beta >= 1
    requires LedgerOk(start.accounts) && ApplyBlocks(rules, start, blocks).Some?
    requires ApplyAll(rules, start.accounts, StepsOfBlocks(rules, start.window, blocks)).Ok? ==>
      Steady(rules, start.accounts, StepsOfBlocks(rules, start.window, blocks), a)
    ensures ApplyAll(rules, start.accounts, StepsOfBlocks(rules, start.window, blocks)).Ok?
    ensures var steps, was, became := StepsOfBlocks(rules, start.window, blocks), Get(start.accounts, a),
                                      Get(ApplyBlocks(rules, start, blocks).value.accounts, a);
      Charged(rules, start.accounts, steps, a) + became.rc
        <= was.rc + rules.params.beta * was.stake * Climb(rules, start.accounts, steps, a)
  {
    hide ApplyAll, ApplyBlocks, StepsOfBlocks, Charged, Climb, Steady;
    BlocksAreOneRun(rules, start, blocks);
    TokenBucket(rules, start.accounts, StepsOfBlocks(rules, start.window, blocks), a);
  }

  // ----- versions -----

  /** The graphs a run of applied blocks leaves behind. */
  ghost predicate VersionRun(graphs: seq<Graph>, blocks: seq<Block>) {
    && |graphs| == |blocks| + 1 && graphs[0] == EMPTY_GRAPH
    && forall i {:trigger blocks[i]} :: 0 <= i < |blocks| ==> VersionAdded(graphs[i], blocks[i], graphs[i + 1])
  }

  /** A block that is no new version, or whose predecessor's hash is not the root of an earlier version. */
  ghost predicate LinksNothing(g: Graph, block: Block) { block.stateRoot in g.nodes || block.prevHash !in g.nodes }

  ghost predicate TipsWithin(g: Graph) { forall h :: h in g.tips ==> h in g.nodes }

  ghost predicate EveryVersionIsTip(g: Graph) { forall h :: h in g.nodes ==> h in g.tips }

  lemma VersionTips(g: Graph, block: Block, after: Graph)
    requires VersionAdded(g, block, after) && TipsWithin(g)
    ensures after.nodes.Keys == g.nodes.Keys + {block.stateRoot} && TipsWithin(after)
    ensures EveryVersionIsTip(after) <==> EveryVersionIsTip(g) && LinksNothing(g, block)
  {
    hide Linked, Without;
    if block.stateRoot !in g.nodes {
      var parents := [block.prevHash];
      assert forall h :: h in parents <==> h == block.prevHash;
      assert forall h :: h in after.tips <==> (h in g.tips && h != block.prevHash) || h == block.stateRoot;
    }
  }

  /** The versions are the roots of the blocks so far. */
  lemma {:induction false} VersionsAreRoots(graphs: seq<Graph>, blocks: seq<Block>, k: nat)
    requires VersionRun(graphs, blocks) && k <= |blocks|
    ensures TipsWithin(graphs[k])
    ensures forall h :: h in graphs[k].nodes <==> exists j :: 0 <= j < k && blocks[j].stateRoot == h
    decreases k
  {
    hide VersionAdded;
    if k > 0 {
      var j := k - 1;
      VersionsAreRoots(graphs, blocks, j);
      assert VersionAdded(graphs[j], blocks[j], graphs[j + 1]);
      VersionTips(graphs[j], blocks[j], graphs[k]);
    }
  }

  /**
   * Versions are stored under state roots but name block hashes as parents: every version of
   * a run is a tip exactly while no new version names an earlier version's root as its
   * predecessor, that is, while no block hash is also an earlier state root.
   */
  lemma {:induction false} VersionsStayTips(graphs: seq<Graph>, blocks: seq<Block>, k: nat)
    requires VersionRun(graphs, blocks) && k <= |blocks|
    ensures EveryVersionIsTip(graphs[k]) <==> forall j :: 0 <= j < k ==> LinksNothing(graphs[j], blocks[j])
    decreases k
  {
    hide VersionAdded, LinksNothing, EveryVersionIsTip;
    if k == 0 {
      NoVersions();
    } else {
      var j := k - 1;
      VersionsStayTips(graphs, blocks, j);
      VersionsAreRoots(graphs, blocks, j);
      assert VersionAdded(graphs[j], blocks[j], graphs[j + 1]);
      VersionTips(graphs[j], blocks[j], graphs[k]);
    }
  }

  lemma NoVersions()
    ensures EveryVersionIsTip(EMPTY_GRAPH)
  {
  }
}
