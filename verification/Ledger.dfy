/** What one transaction, and any run of transactions, does to the accounts (pkg/state/state.go). */
module Ledger {
  import opened Wrappers
  import opened Machine
  import opened Types
  import opened Auth
  import Encoding
  import PayloadCodec
  import Rc

  type Accounts = map<Address, Account>

  datatype TxError =
    | InvalidParties | BadPayload | BadKey | BadSignature | InvalidNonce
    | InsufficientBalance | InsufficientStake | NoEngine | ContractFailed | InsufficientRC

  /** The contract engine's part in a deploy or call: absent, failing, or the work it reports. */
  datatype ContractOutcome = Unconfigured | Rejected | Ran(instructions: uint64, stateWrites: uint64)

  datatype Rules = Rules(params: Rc.Params, crypto: Crypto)

  /** One transaction at its effective time, with the engine's answer in case it needs one. */
  datatype Step = Step(tx: Transaction, now: int64, outcome: ContractOutcome)

  function Get(l: Accounts, a: Address): Account { if a in l then l[a] else ZeroAccount(a) }

  function Put(l: Accounts, acct: Account): Accounts { l[acct.address := acct] }

  ghost predicate LedgerOk(l: Accounts) { forall a :: a in l ==> l[a].address == a }

  // ----- the stages of one transaction -----

  datatype Sender = Sender(account: Account, payload: Payload)

  /** Parties, payload, key and signature; a first key is registered. */
  function Authenticate(rules: Rules, sender: Account, tx: Transaction): Result<Sender, TxError> {
    var env := PayloadCodec.DecodePayload(tx.payload);
    if env.None? then Err(BadPayload)
    else
      var key := ResolveSenderPubKey(rules.crypto, tx, sender.pubKey, env.value.senderPubKey);
      if key.None? then Err(BadKey)
      else if !SignatureValid(rules.crypto, tx, key.value.pubKey) then Err(BadSignature)
      else Ok(Sender(if key.value.register then sender.(pubKey := key.value.pubKey) else sender, env.value.payload))
  }

  /**
   * A transaction is authenticated exactly when its payload decodes, the stored and the
   * carried key have 32 bytes or none and agree, the one that counts has the sender's
   * address, and the signature of 64 bytes over the transaction without it verifies under
   * that key. The sender then holds it.
   */
  lemma AuthenticatesExactly(rules: Rules, sender: Account, tx: Transaction)
    ensures var env := PayloadCodec.DecodePayload(tx.payload);
      Authenticate(rules, sender, tx)
        == if env.None? then Err(BadPayload)
           else
             var stored, given := sender.pubKey, env.value.senderPubKey;
             var key := if |stored| > 0 then stored else given;
             if !(|stored| in {0, 32} && |given| in {0, 32} && |key| > 0
                  && (|stored| > 0 && |given| > 0 ==> stored == given)
                  && rules.crypto.addressOf(key) == Option.Some(tx.from)) then Err(BadKey)
             else if !(|tx.signature| == 64
                       && rules.crypto.verify(key, Encoding.TxBytes(tx.(signature := [])), tx.signature)) then
               Err(BadSignature)
             else Ok(Sender(sender.(pubKey := key), env.value.payload))
  {
    hide PayloadCodec.DecodePayload, Encoding.TxBytes, ResolveSenderPubKey;
  }

  function Refresh(rules: Rules, sender: Account, now: int64): Account {
    sender.(rc := rules.params.RegenRC(sender.rc, sender.stake, sender.lastTime, now),
            lastTime := now,
            rcMax := rules.params.RCMax(sender.stake))
  }

  /** The sender after its payload, what else was written, and the work to be charged for. */
  datatype Effect = Effect(sender: Account, accounts: Accounts, instructions: uint64, stateWrites: uint64)

  function PayloadEffect(l: Accounts, sender: Account, tx: Transaction, p: Payload,
                         outcome: ContractOutcome): Result<Effect, TxError> {
    match p
    case Transfer(to, amount) =>
      if sender.balance < amount then Err(InsufficientBalance)
      else
        var receiver := Get(l, to);
        Ok(Effect(sender.(balance := sender.balance - amount),
                  Put(l, receiver.(balance := Wrap64(receiver.balance + amount))), 0, 2))
    case StakeDelegate(_, amount) =>
      if sender.balance < amount then Err(InsufficientBalance)
      else Ok(Effect(sender.(balance := sender.balance - amount, stake := Wrap64(sender.stake + amount)), l, 0, 1))
    case StakeUndelegate(_, amount) =>
      if sender.stake < amount then Err(InsufficientStake)
      else Ok(Effect(sender.(stake := sender.stake - amount, balance := Wrap64(sender.balance + amount)), l, 0, 1))
    case ContractDeploy(code, _) =>
      (match outcome
       case Unconfigured => Err(NoEngine)
       case Rejected => Err(ContractFailed)
       case Ran(_, _) => Ok(Effect(sender, Put(l, Get(l, tx.to).(code := code)), 0, 1)))
    case ContractCall(_, _, _) =>
      (match outcome
       case Unconfigured => Err(NoEngine)
       case Rejected => Err(ContractFailed)
       case Ran(instructions, writes) => Ok(Effect(sender, l, instructions, writes)))
    case GovernanceProposal(_, _, _, _) => Ok(Effect(sender, l, 0, 1))
    case GovernanceVote(_, _) => Ok(Effect(sender, l, 0, 1))
  }

  /**
   * A payload field by field: what the sender must have, what becomes of its funds, what
   * work there is to charge, and which single field of which one account is written besides.
   */
  lemma EffectMeans(l: Accounts, sender: Account, tx: Transaction, p: Payload, outcome: ContractOutcome)
    requires LedgerOk(l)
    ensures var r := PayloadEffect(l, sender, tx, p, outcome);
      && (r.Ok? <==>
            && (p.Transfer? || p.StakeDelegate? ==> p.amount <= sender.balance)
            && (p.StakeUndelegate? ==> p.amount <= sender.stake)
            && (p.ContractDeploy? || p.ContractCall? ==> outcome.Ran?))
      && (r.Err? ==>
            r.error == if p.Transfer? || p.StakeDelegate? then InsufficientBalance
                       else if p.StakeUndelegate? then InsufficientStake
                       else if outcome.Unconfigured? then NoEngine else ContractFailed)
      && (r.Ok? ==>
            && r.value.sender.balance
                 == (if p.Transfer? || p.StakeDelegate? then sender.balance - p.amount
                     else if p.StakeUndelegate? then Wrap64(sender.balance + p.amount) else sender.balance)
            && r.value.sender.stake
                 == (if p.StakeDelegate? then Wrap64(sender.stake + p.amount)
                     else if p.StakeUndelegate? then sender.stake - p.amount else sender.stake)
            && r.value.sender == sender.(balance := r.value.sender.balance, stake := r.value.sender.stake)
            && r.value.instructions == (if p.ContractCall? then outcome.instructions else 0)
            && r.value.stateWrites
                 == (if p.ContractCall? then outcome.stateWrites else if p.Transfer? then 2 else 1)
            && forall b ::
                 Get(r.value.accounts, b)
                   == if p.Transfer? && b == p.to then Get(l, b).(balance := Wrap64(Get(l, b).balance + p.amount))
                      else if p.ContractDeploy? && b == tx.to then Get(l, b).(code := p.wasmCode)
                      else Get(l, b))
  {
  }

  function ExecutionCost(rules: Rules, tx: Transaction, e: Effect): uint64 {
    rules.params.CostOf(Len64(Encoding.TxBytes(tx)), e.instructions, e.stateWrites)
  }

  /** The charge, the nonce and the sender's own write, which comes after every other write. */
  function Settle(rules: Rules, tx: Transaction, e: Effect): Result<Accounts, TxError> {
    var cost := ExecutionCost(rules, tx, e);
    if e.sender.rc < cost then Err(InsufficientRC)
    else
      Ok(Put(e.accounts, e.sender.(rc := e.sender.rc - cost,
                                   nonce := Wrap64(e.sender.nonce + 1),
                                   rcMax := rules.params.RCMax(e.sender.stake))))
  }

  function ApplyTx(rules: Rules, l: Accounts, s: Step): Result<Accounts, TxError> {
    if s.tx.from == [] || s.tx.to == [] then Err(InvalidParties)
    else
      match Authenticate(rules, Get(l, s.tx.from), s.tx)
      case Err(e) => Err(e)
      case Ok(Sender(account, payload)) =>
        var sender := Refresh(rules, account, s.now);
        if sender.nonce != s.tx.nonce then Err(InvalidNonce)
        else
          match PayloadEffect(l, sender, s.tx, payload, s.outcome)
          case Err(e) => Err(e)
          case Ok(effect) => Settle(rules, s.tx, effect)
  }

  function ApplyAll(rules: Rules, l: Accounts, steps: seq<Step>): Result<Accounts, TxError>
    decreases |steps|
  {
    if steps == [] then Ok(l)
    else
      match ApplyTx(rules, l, steps[0])
      case Err(e) => Err(e)
      case Ok(next) => ApplyAll(rules, next, steps[1..])
  }

  lemma {:induction false} ApplyAllConcat(rules: Rules, l: Accounts, s: seq<Step>, t: seq<Step>)
    ensures ApplyAll(rules, l, s + t)
         == (match ApplyAll(rules, l, s) case Err(e) => Err(e) case Ok(mid) => ApplyAll(rules, mid, t))
    decreases |s|
  {
    if s == [] {
      assert s + t == t;
    } else {
      assert (s + t)[1..] == s[1..] + t;
      match ApplyTx(rules, l, s[0]) {
        case Err(_) =>
        case Ok(next) => ApplyAllConcat(rules, next, s[1..], t);
      }
    }
  }

  // ----- what a successful transaction writes -----

  /** The payload of a transaction that decodes. */
  function PayloadOf(tx: Transaction): Payload
    requires PayloadCodec.DecodePayload(tx.payload).Some?
  {
    PayloadCodec.DecodePayload(tx.payload).value.payload
  }

  /** The intermediate results of a successful transaction. */
  lemma Stages(rules: Rules, l: Accounts, s: Step) returns (sender: Account, e: Effect)
    requires ApplyTx(rules, l, s).Ok?
    ensures PayloadCodec.DecodePayload(s.tx.payload).Some?
    ensures s.tx.from != [] && s.tx.to != []
    ensures sender == Refresh(rules, Get(l, s.tx.from), s.now).(pubKey := sender.pubKey)
    ensures sender.nonce == s.tx.nonce
    ensures PayloadEffect(l, sender, s.tx, PayloadOf(s.tx), s.outcome) == Ok(e)
    ensures Settle(rules, s.tx, e) == ApplyTx(rules, l, s)
  {
    hide PayloadCodec.DecodePayload, Rc.Params.RegenRC, Rc.Params.RCMax, ResolveSenderPubKey, SignatureValid;
    hide PayloadEffect, Settle;
    var auth := Authenticate(rules, Get(l, s.tx.from), s.tx).value;
    sender := Refresh(rules, auth.account, s.now);
    e := PayloadEffect(l, sender, s.tx, auth.payload, s.outcome).value;
  }

  /** What a payload does before the charge: credits, nonce, key and clock of the sender stay, others keep theirs. */
  lemma EffectKeeps(l: Accounts, sender: Account, tx: Transaction, p: Payload, outcome: ContractOutcome)
    requires LedgerOk(l) && PayloadEffect(l, sender, tx, p, outcome).Ok?
    ensures var e := PayloadEffect(l, sender, tx, p, outcome).value;
      && LedgerOk(e.accounts)
      && e.sender == sender.(balance := e.sender.balance, stake := e.sender.stake)
      && forall b ::
           Get(e.accounts, b) == Get(l, b).(balance := Get(e.accounts, b).balance, code := Get(e.accounts, b).code)
  {
  }

  /** Everything a successful step says about nonces, credits and stakes, account by account. */
  ghost predicate StepOutcome(rules: Rules, l: Accounts, s: Step, after: Accounts) {
    var a, was, became := s.tx.from, Get(l, s.tx.from), Get(after, s.tx.from);
    && LedgerOk(after)
    && was.nonce == s.tx.nonce && became.nonce == Wrap64(was.nonce + 1)
    && became.lastTime == s.now
    && became.rc <= rules.params.RegenRC(was.rc, was.stake, was.lastTime, s.now)
    && forall b :: b != a ==> SameButBalanceAndCode(Get(l, b), Get(after, b))
  }

  predicate SameButBalanceAndCode(was: Account, became: Account) {
    became == was.(balance := became.balance, code := became.code)
  }

  /** The settled ledger: the effect's, with the sender charged and moved to its next nonce. */
  lemma SettledSender(rules: Rules, tx: Transaction, e: Effect)
    requires LedgerOk(e.accounts) && Settle(rules, tx, e).Ok?
    ensures var after, x := Settle(rules, tx, e).value, e.sender;
      && LedgerOk(after)
      && (forall b :: b != x.address ==> Get(after, b) == Get(e.accounts, b))
      && Get(after, x.address) == x.(rc := x.rc - ExecutionCost(rules, tx, e), nonce := Wrap64(x.nonce + 1),
                                     rcMax := rules.params.RCMax(x.stake))
      && after == Put(e.accounts, Get(after, x.address))
  {
    hide ExecutionCost, Rc.Params.RCMax;
  }

  lemma AppliedOutcome(rules: Rules, l: Accounts, s: Step)
    requires LedgerOk(l) && ApplyTx(rules, l, s).Ok?
    ensures StepOutcome(rules, l, s, ApplyTx(rules, l, s).value)
  {
    hide PayloadCodec.DecodePayload, Rc.Params.RegenRC, Rc.Params.RCMax, ApplyTx, PayloadEffect, ExecutionCost, Settle;
    var sender, e := Stages(rules, l, s);
    EffectKeeps(l, sender, s.tx, PayloadOf(s.tx), s.outcome);
    SettledSender(rules, s.tx, e);
    assert Get(l, s.tx.from).address == s.tx.from;
  }

  // ----- authority -----

  /**
   * Authentication gives a key that is bound to the address, verifies the transaction, and is the
   * stored one if there is one.
   */
  lemma AuthenticKey(rules: Rules, sender: Account, tx: Transaction)
    requires Authenticate(rules, sender, tx).Ok?
    ensures var key := Authenticate(rules, sender, tx).value.account.pubKey;
      && rules.crypto.addressOf(key) == Some(tx.from) && SignatureValid(rules.crypto, tx, key)
      && (sender.pubKey != [] ==> key == sender.pubKey)
  {
    hide PayloadCodec.DecodePayload, SigningBytes;
  }

  lemma KeptKey(rules: Rules, l: Accounts, s: Step)
    requires LedgerOk(l) && ApplyTx(rules, l, s).Ok?
    ensures Authenticate(rules, Get(l, s.tx.from), s.tx).Ok?
    ensures Get(ApplyTx(rules, l, s).value, s.tx.from).pubKey
        == Authenticate(rules, Get(l, s.tx.from), s.tx).value.account.pubKey
  {
    hide PayloadCodec.DecodePayload, Rc.Params.RegenRC, Rc.Params.RCMax, ResolveSenderPubKey, SignatureValid;
    hide ExecutionCost, PayloadEffect, Settle;
    var auth := Authenticate(rules, Get(l, s.tx.from), s.tx).value;
    AuthenticatedAddress(rules, Get(l, s.tx.from), s.tx);
    var sender := Refresh(rules, auth.account, s.now);
    var e := PayloadEffect(l, sender, s.tx, auth.payload, s.outcome).value;
    EffectKeeps(l, sender, s.tx, auth.payload, s.outcome);
    SettledSender(rules, s.tx, e);
  }

  lemma AuthenticatedAddress(rules: Rules, sender: Account, tx: Transaction)
    requires Authenticate(rules, sender, tx).Ok?
    ensures Authenticate(rules, sender, tx).value.account
        == sender.(pubKey := Authenticate(rules, sender, tx).value.account.pubKey)
  {
    hide PayloadCodec.DecodePayload, ResolveSenderPubKey, SignatureValid;
  }

  /** Nothing is applied without a signature under the key the sender's account then holds, and no held key changes. */
  lemma Authorized(rules: Rules, l: Accounts, s: Step, a: Address)
    requires LedgerOk(l) && ApplyTx(rules, l, s).Ok?
    ensures var after := ApplyTx(rules, l, s).value;
      && rules.crypto.addressOf(Get(after, s.tx.from).pubKey) == Some(s.tx.from)
      && SignatureValid(rules.crypto, s.tx, Get(after, s.tx.from).pubKey)
      && (Get(l, a).pubKey != [] ==> Get(after, a).pubKey == Get(l, a).pubKey)
  {
    hide ApplyTx, Authenticate, SignatureValid, Rc.Params.RegenRC;
    AuthenticKeyOf(rules, l, s);
    AppliedOutcome(rules, l, s);
    if a != s.tx.from {
      assert SameButBalanceAndCode(Get(l, a), Get(ApplyTx(rules, l, s).value, a));
    }
  }

  lemma AuthenticKeyOf(rules: Rules, l: Accounts, s: Step)
    requires LedgerOk(l) && ApplyTx(rules, l, s).Ok?
    ensures var key := Get(ApplyTx(rules, l, s).value, s.tx.from).pubKey;
      && rules.crypto.addressOf(key) == Some(s.tx.from) && SignatureValid(rules.crypto, s.tx, key)
      && (Get(l, s.tx.from).pubKey != [] ==> key == Get(l, s.tx.from).pubKey)
  {
    hide ApplyTx, Authenticate, SignatureValid;
    KeptKey(rules, l, s);
    AuthenticKey(rules, Get(l, s.tx.from), s.tx);
  }

  lemma {:induction false} RunKeepsKey(rules: Rules, l: Accounts, steps: seq<Step>, a: Address)
    requires LedgerOk(l) && ApplyAll(rules, l, steps).Ok? && Get(l, a).pubKey != []
    ensures Get(ApplyAll(rules, l, steps).value, a).pubKey == Get(l, a).pubKey
    decreases |steps|
  {
    hide ApplyTx, SignatureValid;
    if steps != [] {
      Authorized(rules, l, steps[0], a);
      AppliedOutcome(rules, l, steps[0]);
      RunKeepsKey(rules, ApplyTx(rules, l, steps[0]).value, steps[1..], a);
    }
  }

  /** All of a sender's transactions in a run are signed under one key: the one its account holds at the end. */
  lemma RunAuthorized(rules: Rules, l: Accounts, steps: seq<Step>, k: nat)
    requires LedgerOk(l) && ApplyAll(rules, l, steps).Ok? && k < |steps|
    ensures var key := Get(ApplyAll(rules, l, steps).value, steps[k].tx.from).pubKey;
      rules.crypto.addressOf(key) == Some(steps[k].tx.from) && SignatureValid(rules.crypto, steps[k].tx, key)
  {
    hide ApplyAll, ApplyTx, SigningBytes, Total, Losses;
    var mid := RunUpTo(rules, l, steps, k);
    RunConservation(rules, l, steps[..k]);
    Authorized(rules, mid, steps[k], steps[k].tx.from);
    AppliedOutcome(rules, mid, steps[k]);
    var next := ApplyTx(rules, mid, steps[k]).value;
    RestOfRun(rules, l, steps, k, next);
    RunKeepsKey(rules, next, steps[k + 1..], steps[k].tx.from);
  }

  lemma RestOfRun(rules: Rules, l: Accounts, steps: seq<Step>, k: nat, next: Accounts)
    requires k < |steps| && ApplyAll(rules, l, steps[..k + 1]) == Ok(next)
    ensures ApplyAll(rules, l, steps) == ApplyAll(rules, next, steps[k + 1..])
  {
    hide ApplyTx, ApplyAll;
    var done, rest := steps[..k + 1], steps[k + 1..];
    ApplyAllConcat(rules, l, done, rest);
    SplitRun(steps, k + 1);
  }

  lemma SplitRun(steps: seq<Step>, k: nat)
    requires k <= |steps|
    ensures steps[..k] + steps[k..] == steps
  {
  }

  // ----- what stays authentic -----

  /** The key a transaction's payload carries; empty when it carries none. */
  function CarriedKey(tx: Transaction): Bytes {
    var env := PayloadCodec.DecodePayload(tx.payload);
    if env.None? then [] else env.value.senderPubKey
  }

  /** The key an authenticated transaction is resolved to. */
  function ResolvedKey(rules: Rules, sender: Account, tx: Transaction): Bytes
    requires Authenticate(rules, sender, tx).Ok?
  {
    Authenticate(rules, sender, tx).value.account.pubKey
  }

  /** Whether a transaction can be authenticated against the sender's account in l. */
  predicate Authentic(rules: Rules, l: Accounts, tx: Transaction) { Authenticate(rules, Get(l, tx.from), tx).Ok? }

  lemma ResolvedIs(rules: Rules, sender: Account, tx: Transaction)
    requires Authenticate(rules, sender, tx).Ok?
    ensures ResolvedKey(rules, sender, tx) == (if sender.pubKey == [] then CarriedKey(tx) else sender.pubKey) != []
    ensures CarriedKey(tx) == [] || CarriedKey(tx) == ResolvedKey(rules, sender, tx)
    ensures rules.crypto.addressOf(ResolvedKey(rules, sender, tx)) == Some(tx.from)
    ensures |ResolvedKey(rules, sender, tx)| == KEY_SIZE
  {
    hide PayloadCodec.DecodePayload, SigningBytes;
  }

  /** Only the stored key of an account matters to authentication. */
  lemma AuthenticSameKey(rules: Rules, was: Account, became: Account, tx: Transaction)
    requires became.pubKey == was.pubKey
    ensures Authenticate(rules, became, tx).Ok? == Authenticate(rules, was, tx).Ok?
  {
    hide PayloadCodec.DecodePayload, SigningBytes;
  }

  /**
   * Once a key of the address is stored, a transaction resolved before stays authentic exactly when
   * it resolved to that key.
   */
  lemma AuthenticUnder(rules: Rules, was: Account, became: Account, tx: Transaction)
    requires Authenticate(rules, was, tx).Ok?
    requires |became.pubKey| == KEY_SIZE && rules.crypto.addressOf(became.pubKey) == Some(tx.from)
    requires was.pubKey != [] ==> became.pubKey == was.pubKey
    ensures Authenticate(rules, became, tx).Ok? <==> became.pubKey == ResolvedKey(rules, was, tx)
  {
    hide PayloadCodec.DecodePayload, SigningBytes;
  }

  /** What applying a step makes of its sender's key. */
  lemma StepKey(rules: Rules, l: Accounts, s: Step)
    requires LedgerOk(l) && ApplyTx(rules, l, s).Ok?
    ensures Authentic(rules, l, s.tx)
    ensures Get(ApplyTx(rules, l, s).value, s.tx.from).pubKey == ResolvedKey(rules, Get(l, s.tx.from), s.tx)
  {
    hide ApplyTx, Authenticate;
    KeptKey(rules, l, s);
  }

  /**
   * A transaction that could be authenticated still can be after a step exactly when the
   * step is another sender's or was resolved to the same key.
   */
  lemma StaysAuthentic(rules: Rules, l: Accounts, s: Step, tx: Transaction)
    requires LedgerOk(l) && ApplyTx(rules, l, s).Ok? && Authentic(rules, l, tx)
    ensures Authentic(rules, l, s.tx)
    ensures Authentic(rules, ApplyTx(rules, l, s).value, tx) <==>
              (s.tx.from == tx.from ==>
                 ResolvedKey(rules, Get(l, s.tx.from), s.tx) == ResolvedKey(rules, Get(l, tx.from), tx))
  {
    hide ApplyTx, Authenticate, ResolvedKey, Rc.Params.RegenRC;
    var was, became := Get(l, tx.from), Get(ApplyTx(rules, l, s).value, tx.from);
    StepKey(rules, l, s);
    AppliedOutcome(rules, l, s);
    if tx.from != s.tx.from {
      assert SameButBalanceAndCode(was, became);
      AuthenticSameKey(rules, was, became, tx);
    } else {
      ResolvedIs(rules, was, s.tx);
      AuthenticUnder(rules, was, became, tx);
    }
  }

  /** The key an account ends a run with is the one every key carried by its sender's transactions equals. */
  lemma {:induction false} RunCarries(rules: Rules, l: Accounts, steps: seq<Step>, a: Address)
    requires LedgerOk(l) && ApplyAll(rules, l, steps).Ok?
    ensures var end := Get(ApplyAll(rules, l, steps).value, a).pubKey;
      && (Get(l, a).pubKey != [] ==> end == Get(l, a).pubKey)
      && (forall k :: 0 <= k < |steps| && steps[k].tx.from == a && CarriedKey(steps[k].tx) != [] ==>
        CarriedKey(steps[k].tx) == end)
      && (Get(l, a).pubKey == [] && end != [] ==>
            && |end| == KEY_SIZE && rules.crypto.addressOf(end) == Some(a)
            && exists k :: 0 <= k < |steps| && steps[k].tx.from == a && CarriedKey(steps[k].tx) == end)
    decreases |steps|
  {
    hide ApplyTx, Authenticate, ResolvedKey, CarriedKey, Rc.Params.RegenRC, SigningBytes;
    if steps != [] {
      var s, next, rest := steps[0], ApplyTx(rules, l, steps[0]).value, steps[1..];
      AppliedOutcome(rules, l, s);
      RunCarries(rules, next, rest, a);
      StepKey(rules, l, s);
      ResolvedIs(rules, Get(l, s.tx.from), s.tx);
      if s.tx.from != a {
        assert SameButBalanceAndCode(Get(l, a), Get(next, a));
      }
      CarriedInRest(steps, a, Get(ApplyAll(rules, l, steps).value, a).pubKey);
    }
  }

  lemma CarriedInRest(steps: seq<Step>, a: Address, key: Bytes)
    requires steps != []
    ensures var rest := steps[1..];
      (forall k :: 0 <= k < |steps| && steps[k].tx.from == a && CarriedKey(steps[k].tx) != [] ==>
         CarriedKey(steps[k].tx) == key) <==>
        (steps[0].tx.from == a && CarriedKey(steps[0].tx) != [] ==> CarriedKey(steps[0].tx) == key)
        && forall k :: 0 <= k < |rest| && rest[k].tx.from == a && CarriedKey(rest[k].tx) != [] ==>
             CarriedKey(rest[k].tx) == key
    ensures var rest := steps[1..];
      (exists k :: 0 <= k < |steps| && steps[k].tx.from == a && CarriedKey(steps[k].tx) == key) <==>
        (steps[0].tx.from == a && CarriedKey(steps[0].tx) == key)
        || exists k :: 0 <= k < |rest| && rest[k].tx.from == a && CarriedKey(rest[k].tx) == key
  {
    hide CarriedKey;
    forall k | 0 < k < |steps|
      ensures steps[k] == steps[1..][k - 1]
    {
    }
  }

  /** The keys a run carries for tx's sender, if that sender has none stored yet, are the key tx carries. */
  ghost predicate CarriesSameKey(l: Accounts, steps: seq<Step>, tx: Transaction) {
    Get(l, tx.from).pubKey == [] ==>
      forall k :: 0 <= k < |steps| && steps[k].tx.from == tx.from && CarriedKey(steps[k].tx) != [] ==>
        CarriedKey(steps[k].tx) == CarriedKey(tx)
  }

  /**
   * Over whole runs: a transaction once authenticated can still be authenticated at the end
   * exactly when its sender had a key, or every key its sender's transactions carry is its own.
   */
  lemma RunStaysAuthentic(rules: Rules, l: Accounts, steps: seq<Step>, tx: Transaction)
    requires LedgerOk(l) && ApplyAll(rules, l, steps).Ok? && Authentic(rules, l, tx)
    ensures Authentic(rules, ApplyAll(rules, l, steps).value, tx) <==> CarriesSameKey(l, steps, tx)
  {
    hide ApplyAll, Authenticate, ResolvedKey, CarriedKey, SigningBytes;
    var was, became := Get(l, tx.from), Get(ApplyAll(rules, l, steps).value, tx.from);
    RunCarries(rules, l, steps, tx.from);
    ResolvedIs(rules, was, tx);
    if became.pubKey == was.pubKey {
      AuthenticSameKey(rules, was, became, tx);
    } else {
      AuthenticUnder(rules, was, became, tx);
    }
  }

  /**
   * What a successful transaction delivers: funds moved, stake changed, code stored unless the
   * sender deploys onto itself.
   */
  lemma Delivered(rules: Rules, l: Accounts, s: Step)
    requires LedgerOk(l) && ApplyTx(rules, l, s).Ok?
    ensures PayloadCodec.DecodePayload(s.tx.payload).Some?
    ensures var a, was, became, after := s.tx.from, Get(l, s.tx.from), Get(ApplyTx(rules, l, s).value, s.tx.from),
        ApplyTx(rules, l, s).value;
      && became.code == was.code
      && match PayloadOf(s.tx) {
           case Transfer(to, amount) =>
             && became.balance == was.balance - amount && became.stake == was.stake
             && (to != a ==> Get(after, to).balance == Wrap64(Get(l, to).balance + amount))
           case StakeDelegate(_, amount) => became.balance == was.balance - amount
             && became.stake == Wrap64(was.stake + amount)
           case StakeUndelegate(_, amount) => became.stake == was.stake - amount
             && became.balance == Wrap64(was.balance + amount)
           case ContractDeploy(code, _) =>
             && became.balance == was.balance && became.stake == was.stake && s.outcome.Ran?
             && (s.tx.to != a ==> Get(after, s.tx.to).code == code)
           case _ => became.balance == was.balance && became.stake == was.stake
         }
  {
    hide PayloadCodec.DecodePayload, Rc.Params.RegenRC, Rc.Params.RCMax, ApplyTx, ExecutionCost, Settle;
    var sender, e := Stages(rules, l, s);
    EffectKeeps(l, sender, s.tx, PayloadOf(s.tx), s.outcome);
    SettledSender(rules, s.tx, e);
  }

  /**
   * Whoever is not the sender: an applied transaction leaves it as it was, but for the
   * balance of the one a transfer goes to and the code of the one a deploy goes to.
   */
  lemma OthersExactly(rules: Rules, l: Accounts, s: Step, b: Address)
    requires LedgerOk(l) && ApplyTx(rules, l, s).Ok? && b != s.tx.from
    ensures PayloadCodec.DecodePayload(s.tx.payload).Some?
    ensures var p, was := PayloadOf(s.tx), Get(l, b);
      Get(ApplyTx(rules, l, s).value, b)
        == if p.Transfer? && b == p.to then was.(balance := Wrap64(was.balance + p.amount))
           else if p.ContractDeploy? && b == s.tx.to then was.(code := p.wasmCode)
           else was
  {
    hide PayloadCodec.DecodePayload, ApplyTx, PayloadEffect, Refresh, Settle, ExecutionCost;
    var sender, e := Stages(rules, l, s);
    EffectKeeps(l, sender, s.tx, PayloadOf(s.tx), s.outcome);
    EffectMeans(l, sender, s.tx, PayloadOf(s.tx), s.outcome);
    RefreshedAddress(rules, Get(l, s.tx.from), s.now, sender.pubKey);
    SettledSender(rules, s.tx, e);
  }

  lemma RefreshedAddress(rules: Rules, acct: Account, now: int64, key: Bytes)
    ensures Refresh(rules, acct, now).(pubKey := key)
         == acct.(rc := rules.params.RegenRC(acct.rc, acct.stake, acct.lastTime, now), lastTime := now,
                  rcMax := rules.params.RCMax(acct.stake), pubKey := key)
  {
    hide Rc.Params.RegenRC, Rc.Params.RCMax;
  }

  /** The sender, field by field. Its code and address stay, whatever the payload says about its own address. */
  lemma SenderExactly(rules: Rules, l: Accounts, s: Step)
    requires LedgerOk(l) && ApplyTx(rules, l, s).Ok?
    ensures PayloadCodec.DecodePayload(s.tx.payload).Some?
    ensures var p, was, became := PayloadOf(s.tx), Get(l, s.tx.from), Get(ApplyTx(rules, l, s).value, s.tx.from);
      && became.address == s.tx.from && became.code == was.code
      && became.nonce == Wrap64(s.tx.nonce + 1) && was.nonce == s.tx.nonce
      && became.balance
           == (if p.Transfer? || p.StakeDelegate? then was.balance - p.amount
               else if p.StakeUndelegate? then Wrap64(was.balance + p.amount) else was.balance)
      && became.stake
           == (if p.StakeDelegate? then Wrap64(was.stake + p.amount)
               else if p.StakeUndelegate? then was.stake - p.amount else was.stake)
      && became.lastTime == s.now
      && became.rc
           == rules.params.RegenRC(was.rc, was.stake, was.lastTime, s.now)
              - Min(rules.params.cSize * Len64(Encoding.TxBytes(s.tx))
                    + rules.params.cCompute * (if p.ContractCall? && s.outcome.Ran? then s.outcome.instructions else 0)
                    + rules.params.cStorage
                      * (if p.Transfer? then 2
                         else if p.ContractCall? && s.outcome.Ran? then s.outcome.stateWrites else 1), MAX64)
      && became.rcMax == Min(rules.params.alpha * became.stake, MAX64)
      && became.pubKey == (if |was.pubKey| > 0 then was.pubKey else CarriedKey(s.tx))
  {
    hide PayloadCodec.DecodePayload, ApplyTx, PayloadEffect, Refresh, Settle, Rc.Params.RegenRC, Encoding.TxBytes;
    hide Authenticate;
    var sender, e := Stages(rules, l, s);
    EffectKeeps(l, sender, s.tx, PayloadOf(s.tx), s.outcome);
    EffectMeans(l, sender, s.tx, PayloadOf(s.tx), s.outcome);
    RefreshedAddress(rules, Get(l, s.tx.from), s.now, sender.pubKey);
    SettledSender(rules, s.tx, e);
    KeptKey(rules, l, s);
    AuthenticatesExactly(rules, Get(l, s.tx.from), s.tx);
  }

  /** Which refusal a transaction meets, in the order of the checks. */
  lemma RefusedExactly(rules: Rules, l: Accounts, s: Step)
    requires LedgerOk(l)
    ensures var r, was := ApplyTx(rules, l, s), Get(l, s.tx.from);
      var auth := Authenticate(rules, was, s.tx);
      && (r == Err(InvalidParties) <==> |s.tx.from| == 0 || |s.tx.to| == 0)
      && (|s.tx.from| > 0 && |s.tx.to| > 0 ==>
            && (auth.Err? <==> r.Err? && (r.error.BadPayload? || r.error.BadKey? || r.error.BadSignature?))
            && (auth.Err? ==> r == Err(auth.error))
            && (auth.Ok? ==>
                  && var p := auth.value.payload;
                  && (r == Err(InvalidNonce) <==> s.tx.nonce != was.nonce)
                  && (s.tx.nonce == was.nonce ==>
                        && (r == Err(InsufficientBalance) <==>
                              (p.Transfer? || p.StakeDelegate?) && was.balance < p.amount)
                        && (r == Err(InsufficientStake) <==> p.StakeUndelegate? && was.stake < p.amount)
                        && (r == Err(NoEngine) <==> (p.ContractDeploy? || p.ContractCall?) && s.outcome.Unconfigured?)
                        && (r == Err(ContractFailed) <==>
                              (p.ContractDeploy? || p.ContractCall?) && s.outcome.Rejected?))))
  {
    hide PayloadCodec.DecodePayload, PayloadEffect, Refresh, Settle, Authenticate;
    var was := Get(l, s.tx.from);
    AuthErrors(rules, was, s.tx);
    if |s.tx.from| > 0 && |s.tx.to| > 0 && Authenticate(rules, was, s.tx).Ok? {
      var auth := Authenticate(rules, was, s.tx).value;
      AuthenticatedAddress(rules, was, s.tx);
      RefreshedAddress(rules, was, s.now, auth.account.pubKey);
      RefreshKeepsKey(rules, was, auth.account.pubKey, s.now);
      var sender := Refresh(rules, auth.account, s.now);
      EffectMeans(l, sender, s.tx, auth.payload, s.outcome);
      if PayloadEffect(l, sender, s.tx, auth.payload, s.outcome).Ok? {
        SettleErrors(rules, s.tx, PayloadEffect(l, sender, s.tx, auth.payload, s.outcome).value);
      }
    }
  }

  lemma RefreshKeepsKey(rules: Rules, acct: Account, key: Bytes, now: int64)
    ensures Refresh(rules, acct.(pubKey := key), now) == Refresh(rules, acct, now).(pubKey := key)
  {
    hide Rc.Params.RegenRC, Rc.Params.RCMax;
  }

  lemma AuthErrors(rules: Rules, sender: Account, tx: Transaction)
    ensures Authenticate(rules, sender, tx).Err? ==>
              var e := Authenticate(rules, sender, tx).error; e.BadPayload? || e.BadKey? || e.BadSignature?
  {
    hide PayloadCodec.DecodePayload, ResolveSenderPubKey, SignatureValid;
  }

  lemma SettleErrors(rules: Rules, tx: Transaction, e: Effect)
    ensures Settle(rules, tx, e).Err? ==> Settle(rules, tx, e).error.InsufficientRC?
  {
    hide ExecutionCost, Rc.Params.RCMax;
  }

  /** The sender owns what the payload spends, and the engine has run what it calls for. */
  predicate Funded(acct: Account, p: Payload, outcome: ContractOutcome) {
    match p
    case Transfer(_, amount) => amount <= acct.balance
    case StakeDelegate(_, amount) => amount <= acct.balance
    case StakeUndelegate(_, amount) => amount <= acct.stake
    case ContractDeploy(_, _) => outcome.Ran?
    case ContractCall(_, _, _) => outcome.Ran?
    case _ => true
  }

  /** Instructions and state writes a transaction is charged for. */
  function WorkOf(p: Payload, outcome: ContractOutcome): (uint64, uint64) {
    match p
    case Transfer(_, _) => (0, 2)
    case ContractCall(_, _, _) => if outcome.Ran? then (outcome.instructions, outcome.stateWrites) else (0, 0)
    case _ => (0, 1)
  }

  /** What a transaction that decodes will be charged. */
  function DueFor(rules: Rules, s: Step): uint64
    requires PayloadCodec.DecodePayload(s.tx.payload).Some?
  {
    var work := WorkOf(PayloadOf(s.tx), s.outcome);
    rules.params.CostOf(Len64(Encoding.TxBytes(s.tx)), work.0, work.1)
  }

  /** An applied transaction finds what it is charged among its sender's credits, one refused for credits does not. */
  lemma DueWithinCredits(rules: Rules, l: Accounts, s: Step)
    ensures var r, was := ApplyTx(rules, l, s), Get(l, s.tx.from);
      r.Ok? || r.error.InsufficientRC? ==>
        PayloadCodec.DecodePayload(s.tx.payload).Some?
        && (r.Ok? <==> DueFor(rules, s) <= rules.params.RegenRC(was.rc, was.stake, was.lastTime, s.now))
  {
    hide PayloadCodec.DecodePayload, Rc.Params.RegenRC, Rc.Params.RCMax, Rc.Params.CostOf, Encoding.TxBytes;
    hide SignatureValid, ResolveSenderPubKey;
  }

  /**
   * A transaction is applied exactly when it is addressed, authentic, next in line, funded, and
   * paid for by regenerated credits.
   */
  lemma AppliesExactly(rules: Rules, l: Accounts, s: Step)
    ensures ApplyTx(rules, l, s).Ok? <==>
      var was := Get(l, s.tx.from);
      && s.tx.from != [] && s.tx.to != []
      && Authenticate(rules, was, s.tx).Ok?
      && was.nonce == s.tx.nonce
      && var p := Authenticate(rules, was, s.tx).value.payload;
      && Funded(was, p, s.outcome)
      && rules.params.CostOf(Len64(Encoding.TxBytes(s.tx)), WorkOf(p, s.outcome).0, WorkOf(p, s.outcome).1)
           <= rules.params.RegenRC(was.rc, was.stake, was.lastTime, s.now)
  {
    hide PayloadCodec.DecodePayload, Rc.Params.RegenRC, Rc.Params.RCMax, Rc.Params.CostOf, Encoding.TxBytes;
    hide SignatureValid, ResolveSenderPubKey;
    if Authenticate(rules, Get(l, s.tx.from), s.tx).Ok? {
      AuthenticatedAddress(rules, Get(l, s.tx.from), s.tx);
    }
  }

  /** Such transactions exist: an encoded transfer between any two short addresses can be applied. */
  lemma SomeTransferApplies(from: Address, to: Address, amount: uint64) returns (rules: Rules, l: Accounts, s: Step)
    requires 0 < |from| <= 64 && 0 < |to| <= 64
    ensures LedgerOk(l) && ApplyTx(rules, l, s).Ok? && s.tx.from == from
    ensures PayloadCodec.DecodePayload(s.tx.payload).Some? && PayloadOf(s.tx) == Transfer(to, amount)
  {
    hide PayloadCodec.DecodePayload, Rc.Params.RegenRC, Encoding.TxBytes, PayloadCodec.PayloadBytes;
    var key: Bytes := ZERO_HASH;
    var free := Rc.Params(MAX64, 1, 0, 0, 0, 0, 1);
    rules := Rules(free,
      Crypto((b: Bytes) => ZERO_HASH, (k: Bytes) => Some(from), (m: Bytes, sig: Bytes, k: Bytes) => true));
    l := map[from := Account(from, amount, 0, 1, 0, 0, 0, [], [])];
    PayloadCodec.TransferSize(to, amount, key);
    PayloadCodec.PayloadRoundTrip(Transfer(to, amount), key);
    var signature: Bytes := ZERO_HASH + ZERO_HASH;
    s := Step(Transaction(from, to, 0, PayloadCodec.PayloadBytes(Transfer(to, amount), key), signature), 0,
      Unconfigured);
    AppliesExactly(rules, l, s);
  }

  // ----- conservation -----

  function Worth(a: Account): nat { a.balance + a.stake }

  ghost function Total(l: Accounts): nat
    decreases |l|
  {
    if l == map[] then 0
    else
      var a :| a in l;
      Worth(l[a]) + Total(l - {a})
  }

  lemma {:induction false} TotalRemove(l: Accounts, a: Address)
    requires a in l
    ensures Total(l) == Worth(l[a]) + Total(l - {a})
    decreases |l|
  {
    var b :| b in l && Total(l) == Worth(l[b]) + Total(l - {b});
    if a != b {
      TotalRemove(l - {b}, a);
      TotalRemove(l - {a}, b);
      assert l - {a} - {b} == l - {b} - {a};
    }
  }

  lemma TotalPut(l: Accounts, x: Account)
    requires LedgerOk(l)
    ensures Total(Put(l, x)) == Total(l) - Worth(Get(l, x.address)) + Worth(x)
  {
    TotalRemove(Put(l, x), x.address);
    assert Put(l, x) - {x.address} == l - {x.address};
    if x.address in l {
      TotalRemove(l, x.address);
    } else {
      assert l - {x.address} == l;
    }
  }

  /** What a transfer to oneself destroys: the sender's own write replaces the credit. */
  function SelfTransferLoss(tx: Transaction): nat
    requires PayloadCodec.DecodePayload(tx.payload).Some?
  {
    match PayloadOf(tx)
    case Transfer(to, amount) => if to == tx.from then amount else 0
    case _ => 0
  }

  lemma {:induction false} WorthWithinTotal(l: Accounts, a: Address)
    requires LedgerOk(l)
    ensures Worth(Get(l, a)) <= Total(l)
  {
    if a in l {
      TotalRemove(l, a);
    }
  }

  lemma {:induction false} PairWithinTotal(l: Accounts, a: Address, b: Address)
    requires LedgerOk(l) && a != b
    ensures Worth(Get(l, a)) + Worth(Get(l, b)) <= Total(l)
  {
    WorthWithinTotal(l, b);
    if a in l {
      TotalRemove(l, a);
      WorthWithinTotal(l - {a}, b);
    }
  }

  /** A credit to `to` followed by a debit of `from`, whose stored account is replaced by the debited one. */
  lemma TransferTotal(l: Accounts, from: Address, to: Address, amount: uint64)
    requires LedgerOk(l) && Get(l, from).balance >= amount
    ensures var receiver := Get(l, to);
      var mid := Put(l, receiver.(balance := Wrap64(receiver.balance + amount)));
      var total := Total(mid) - Worth(Get(mid, from)) + Worth(Get(l, from)) - amount;
      && total <= Total(l) && (Total(l) <= MAX64 ==> total == Total(l) - if to == from then amount else 0)
  {
    hide Total;
    var receiver := Get(l, to);
    TotalPut(l, receiver.(balance := Wrap64(receiver.balance + amount)));
    if to != from {
      PairWithinTotal(l, from, to);
    }
  }

  /** The total once the debited sender has replaced its stored account. */
  ghost function TotalWith(e: Effect): int
  {
    Total(e.accounts) - Worth(Get(e.accounts, e.sender.address)) + Worth(e.sender)
  }

  /** The stored sender and the one being changed agree on what they own. */
  predicate SameFunds(l: Accounts, sender: Account, from: Address) {
    && sender.address == from
    && sender.balance == Get(l, from).balance && sender.stake == Get(l, from).stake
  }

  lemma TransferEffectTotal(l: Accounts, sender: Account, tx: Transaction, p: Payload, outcome: ContractOutcome)
    requires LedgerOk(l) && PayloadEffect(l, sender, tx, p, outcome).Ok? && SameFunds(l, sender, tx.from) && p.Transfer?
    ensures var total := TotalWith(PayloadEffect(l, sender, tx, p, outcome).value);
      total <= Total(l) && (Total(l) <= MAX64 ==> total == Total(l) - if p.to == tx.from then p.amount else 0)
  {
    hide Total;
    TransferTotal(l, tx.from, p.to, p.amount);
  }

  lemma EffectTotal(l: Accounts, sender: Account, tx: Transaction, p: Payload, outcome: ContractOutcome)
    requires LedgerOk(l) && PayloadEffect(l, sender, tx, p, outcome).Ok? && SameFunds(l, sender, tx.from)
    ensures var total := TotalWith(PayloadEffect(l, sender, tx, p, outcome).value);
      && total <= Total(l)
      && (Total(l) <= MAX64 ==> total == Total(l) - if p.Transfer? && p.to == tx.from then p.amount else 0)
  {
    hide Total, PayloadEffect, TotalWith;
    if p.Transfer? {
      TransferEffectTotal(l, sender, tx, p, outcome);
    } else if p.ContractDeploy? {
      DeployEffectTotal(l, sender, tx, p, outcome);
    } else {
      StakingTotal(l, sender, tx, p, outcome);
    }
  }

  lemma DeployEffectTotal(l: Accounts, sender: Account, tx: Transaction, p: Payload, outcome: ContractOutcome)
    requires LedgerOk(l) && PayloadEffect(l, sender, tx, p, outcome).Ok? && SameFunds(l, sender, tx.from)
        && p.ContractDeploy?
    ensures TotalWith(PayloadEffect(l, sender, tx, p, outcome).value) == Total(l)
  {
    hide Total;
    DeployTotal(l, tx.to, tx.from, p.wasmCode);
  }

  lemma StakingTotal(l: Accounts, sender: Account, tx: Transaction, p: Payload, outcome: ContractOutcome)
    requires LedgerOk(l) && PayloadEffect(l, sender, tx, p, outcome).Ok? && SameFunds(l, sender, tx.from)
    requires !p.Transfer? && !p.ContractDeploy?
    ensures var total := TotalWith(PayloadEffect(l, sender, tx, p, outcome).value);
      total <= Total(l) && (Total(l) <= MAX64 ==> total == Total(l))
  {
    hide Total;
    WorthWithinTotal(l, tx.from);
  }

  lemma DeployTotal(l: Accounts, to: Address, from: Address, code: Bytes)
    requires LedgerOk(l)
    ensures var mid := Put(l, Get(l, to).(code := code));
      Total(mid) - Worth(Get(mid, from)) + Worth(Get(l, from)) == Total(l)
  {
    hide Total;
    TotalPut(l, Get(l, to).(code := code));
  }

  /** No transaction creates balance or stake; only a transfer to oneself loses any. */
  lemma Conservation(rules: Rules, l: Accounts, s: Step)
    requires LedgerOk(l) && ApplyTx(rules, l, s).Ok?
    ensures PayloadCodec.DecodePayload(s.tx.payload).Some?
    ensures Total(ApplyTx(rules, l, s).value) <= Total(l)
    ensures Total(l) <= MAX64 ==> Total(ApplyTx(rules, l, s).value) == Total(l) - SelfTransferLoss(s.tx)
  {
    hide PayloadCodec.DecodePayload, Rc.Params.RegenRC, Rc.Params.RCMax, ApplyTx, PayloadEffect, ExecutionCost, Settle;
    hide Total;
    var sender, e := Stages(rules, l, s);
    EffectKeeps(l, sender, s.tx, PayloadOf(s.tx), s.outcome);
    EffectTotal(l, sender, s.tx, PayloadOf(s.tx), s.outcome);
    SettledSender(rules, s.tx, e);
    TotalPut(e.accounts, Get(ApplyTx(rules, l, s).value, s.tx.from));
  }

  /** What a run of transactions loses to self-transfers. */
  ghost function Losses(steps: seq<Step>): nat
    decreases |steps|
  {
    if steps == [] then 0
    else
      (if PayloadCodec.DecodePayload(steps[0].tx.payload).Some? then SelfTransferLoss(steps[0].tx) else 0)
      + Losses(steps[1..])
  }

  /** Over every successful run the total never grows, and while it fits in 64 bits it is accounted for exactly. */
  lemma {:induction false} RunConservation(rules: Rules, l: Accounts, steps: seq<Step>)
    requires LedgerOk(l) && ApplyAll(rules, l, steps).Ok?
    ensures LedgerOk(ApplyAll(rules, l, steps).value)
    ensures Total(ApplyAll(rules, l, steps).value) <= Total(l)
    ensures Total(l) <= MAX64 ==> Total(ApplyAll(rules, l, steps).value) == Total(l) - Losses(steps)
    decreases |steps|
  {
    hide Total, ApplyTx, SelfTransferLoss, PayloadCodec.DecodePayload;
    if steps != [] {
      Conservation(rules, l, steps[0]);
      AppliedOutcome(rules, l, steps[0]);
      RunConservation(rules, ApplyTx(rules, l, steps[0]).value, steps[1..]);
    }
  }

  /** The unchecked additions of a transaction: credit, stake and returned stake. */
  predicate AdditionWraps(l: Accounts, tx: Transaction)
    requires PayloadCodec.DecodePayload(tx.payload).Some?
  {
    match PayloadOf(tx)
    case Transfer(to, amount) => to != tx.from && Get(l, to).balance + amount > MAX64
    case StakeDelegate(_, amount) => Get(l, tx.from).stake + amount > MAX64
    case StakeUndelegate(_, amount) => Get(l, tx.from).balance + amount > MAX64
    case _ => false
  }

  /** If the total fits in 64 bits at the start of a run, no step of it wraps a sum that is kept. */
  lemma NothingWraps(rules: Rules, l: Accounts, steps: seq<Step>, k: nat)
    requires LedgerOk(l) && Total(l) <= MAX64 && ApplyAll(rules, l, steps).Ok? && k < |steps|
    ensures ApplyAll(rules, l, steps[..k]).Ok? && PayloadCodec.DecodePayload(steps[k].tx.payload).Some?
    ensures !AdditionWraps(ApplyAll(rules, l, steps[..k]).value, steps[k].tx)
  {
    hide Total, ApplyAll, ApplyTx, PayloadCodec.DecodePayload, Losses;
    var mid := RunUpTo(rules, l, steps, k);
    RunConservation(rules, l, steps[..k]);
    var sender, e := Stages(rules, mid, steps[k]);
    WorthWithinTotal(mid, steps[k].tx.from);
    match PayloadOf(steps[k].tx) {
      case Transfer(to, _) =>
        if to != steps[k].tx.from {
          PairWithinTotal(mid, steps[k].tx.from, to);
        }
      case _ =>
    }
  }

  /** The ledger before step k of a successful run, which step k applies to. */
  lemma RunUpTo(rules: Rules, l: Accounts, steps: seq<Step>, k: nat) returns (mid: Accounts)
    requires ApplyAll(rules, l, steps).Ok? && k < |steps|
    ensures ApplyAll(rules, l, steps[..k]) == Ok(mid) && ApplyTx(rules, mid, steps[k]).Ok?
    ensures ApplyAll(rules, l, steps[..k + 1]) == ApplyTx(rules, mid, steps[k])
  {
    hide ApplyTx;
    assert steps == steps[..k] + steps[k..];
    ApplyAllConcat(rules, l, steps[..k], steps[k..]);
    mid := ApplyAll(rules, l, steps[..k]).value;
    assert steps[..k + 1] == steps[..k] + [steps[k]];
    ApplyAllConcat(rules, l, steps[..k], [steps[k]]);
    ApplyOne(rules, mid, steps[k]);
  }

  lemma ApplyOne(rules: Rules, l: Accounts, s: Step)
    ensures ApplyAll(rules, l, [s]) == ApplyTx(rules, l, s)
  {
    hide ApplyTx;
    assert [s][1..] == [];
  }

  // ----- nonces -----

  function CountFrom(steps: seq<Step>, a: Address): nat {
    if steps == [] then 0 else (if steps[0].tx.from == a then 1 else 0) + CountFrom(steps[1..], a)
  }

  /** An account's nonce counts its applied transactions. */
  lemma {:induction false} NonceCounts(rules: Rules, l: Accounts, steps: seq<Step>, a: Address)
    requires LedgerOk(l) && ApplyAll(rules, l, steps).Ok?
    ensures Get(ApplyAll(rules, l, steps).value, a).nonce == Wrap64(Get(l, a).nonce + CountFrom(steps, a))
    decreases |steps|
  {
    hide ApplyTx;
    if steps != [] {
      AppliedOutcome(rules, l, steps[0]);
      var next := ApplyTx(rules, l, steps[0]).value;
      assert steps[0].tx.from != a ==> SameButBalanceAndCode(Get(l, a), Get(next, a));
      NonceCounts(rules, next, steps[1..], a);
      WrapNext(Get(l, a).nonce, CountFrom(steps[1..], a));
    }
  }

  lemma {:induction false} CountSplit(steps: seq<Step>, k: nat, a: Address)
    requires k <= |steps|
    ensures CountFrom(steps, a) == CountFrom(steps[..k], a) + CountFrom(steps[k..], a)
    ensures CountFrom(steps[..k], a) <= k
    decreases k
  {
    if k > 0 {
      assert steps[..k][1..] == steps[1..][..k - 1];
      CountSplit(steps[1..], k - 1, a);
    }
  }

  lemma CountGrows(steps: seq<Step>, i: nat, j: nat, a: Address)
    requires i < j <= |steps| && steps[i].tx.from == a
    ensures CountFrom(steps[..i], a) < CountFrom(steps[..j], a) <= j
  {
    var upTo := steps[..j];
    CountSplit(steps, j, a);
    CountSplit(upTo, i, a);
    assert upTo[..i] == steps[..i] && upTo[i..][0] == steps[i];
  }

  lemma StepNonce(rules: Rules, l: Accounts, steps: seq<Step>, k: nat)
    requires LedgerOk(l) && ApplyAll(rules, l, steps).Ok? && k < |steps|
    ensures steps[k].tx.nonce == Wrap64(Get(l, steps[k].tx.from).nonce + CountFrom(steps[..k], steps[k].tx.from))
  {
    hide ApplyAll, ApplyTx, Total, Losses;
    var mid := RunUpTo(rules, l, steps, k);
    RunConservation(rules, l, steps[..k]);
    NonceCounts(rules, l, steps[..k], steps[k].tx.from);
    AppliedOutcome(rules, mid, steps[k]);
  }

  /** No (sender, nonce) pair is applied twice in a run shorter than the nonce space. */
  lemma NoReplay(rules: Rules, l: Accounts, steps: seq<Step>, i: nat, j: nat)
    requires LedgerOk(l) && ApplyAll(rules, l, steps).Ok? && i < j < |steps| <= MAX64
    requires steps[i].tx.from == steps[j].tx.from
    ensures steps[i].tx.nonce != steps[j].tx.nonce
  {
    hide ApplyAll;
    var a := steps[i].tx.from;
    StepNonce(rules, l, steps, i);
    StepNonce(rules, l, steps, j);
    CountGrows(steps, i, j, a);
    WrapDistinct(Get(l, a).nonce, CountFrom(steps[..i], a), CountFrom(steps[..j], a));
  }

  // ----- the token bucket -----

  /** Credits a successful step takes from its sender. */
  function ChargeOf(rules: Rules, l: Accounts, s: Step): int
    requires ApplyTx(rules, l, s).Ok?
  {
    var was := Get(l, s.tx.from);
    rules.params.RegenRC(was.rc, was.stake, was.lastTime, s.now) - Get(ApplyTx(rules, l, s).value, s.tx.from).rc
  }

  /** The charge is the cost of the transaction's size, instructions and writes. */
  lemma ChargeIsCost(rules: Rules, l: Accounts, s: Step)
    requires LedgerOk(l) && ApplyTx(rules, l, s).Ok?
    ensures PayloadCodec.DecodePayload(s.tx.payload).Some?
    ensures ChargeOf(rules, l, s) == rules.params.CostOf(Len64(Encoding.TxBytes(s.tx)),
      if PayloadOf(s.tx).ContractCall? && s.outcome.Ran? then s.outcome.instructions else 0,
      match PayloadOf(s.tx) {
        case Transfer(_, _) => 2
        case ContractCall(_, _, _) => if s.outcome.Ran? then s.outcome.stateWrites else 0
        case _ => 1
      })
  {
    hide PayloadCodec.DecodePayload, Rc.Params.RegenRC, Rc.Params.RCMax, ApplyTx, Settle, Encoding.TxBytes;
    hide Rc.Params.CostOf;
    var sender, e := Stages(rules, l, s);
    EffectKeeps(l, sender, s.tx, PayloadOf(s.tx), s.outcome);
    SettledSender(rules, s.tx, e);
  }

  function Charged(rules: Rules, l: Accounts, steps: seq<Step>, a: Address): int
    requires ApplyAll(rules, l, steps).Ok?
    decreases |steps|
  {
    if steps == [] then 0
    else
      (if steps[0].tx.from == a then ChargeOf(rules, l, steps[0]) else 0)
      + Charged(rules, ApplyTx(rules, l, steps[0]).value, steps[1..], a)
  }

  /** a's stake stays the same and its clock never jumps by more than an int64. */
  ghost predicate Steady(rules: Rules, l: Accounts, steps: seq<Step>, a: Address)
    requires ApplyAll(rules, l, steps).Ok?
    decreases |steps|
  {
    steps == [] ||
    var next := ApplyTx(rules, l, steps[0]).value;
    && Get(next, a).stake == Get(l, a).stake
    && (steps[0].tx.from == a ==> -TWO63 <= steps[0].now - Get(l, a).lastTime < TWO63)
    && Steady(rules, next, steps[1..], a)
  }

  /** How far one step moves a's clock forward. */
  function ClimbOf(l: Accounts, s: Step, a: Address): nat {
    if s.tx.from == a then Rc.Max0(s.now - Get(l, a).lastTime) else 0
  }

  /** How far a run moves a's clock forward in all, whatever it moves it back in between. */
  function Climb(rules: Rules, l: Accounts, steps: seq<Step>, a: Address): nat
    requires ApplyAll(rules, l, steps).Ok?
    decreases |steps|
  {
    if steps == [] then 0
    else ClimbOf(l, steps[0], a) + Climb(rules, ApplyTx(rules, l, steps[0]).value, steps[1..], a)
  }

  /** One step of the bucket: what was there plus what time added covers the charge and what is left. */
  lemma BucketStep(rules: Rules, l: Accounts, s: Step, a: Address)
    requires LedgerOk(l) && ApplyTx(rules, l, s).Ok? && rules.params.beta >= 1
    requires s.tx.from == a ==> -TWO63 <= s.now - Get(l, a).lastTime < TWO63
    ensures var was, became := Get(l, a), Get(ApplyTx(rules, l, s).value, a);
      var charge := if s.tx.from == a then ChargeOf(rules, l, s) else 0;
      charge + became.rc <= was.rc + rules.params.beta * was.stake * ClimbOf(l, s, a)
  {
    hide ApplyTx, Rc.Params.RegenRC;
    AppliedOutcome(rules, l, s);
    var was := Get(l, a);
    if s.tx.from == a {
      rules.params.RegenBounded(was.rc, was.stake, was.lastTime, s.now);
    } else {
      assert SameButBalanceAndCode(was, Get(ApplyTx(rules, l, s).value, a));
      assert rules.params.beta * was.stake * 0 == 0;
    }
  }

  /**
   * Token bucket: over any run in which a's stake is constant, the credits charged to a never
   * exceed what it started with plus beta per unit of stake and second its clock was moved
   * forward.
   */
  lemma {:induction false} TokenBucket(rules: Rules, l: Accounts, steps: seq<Step>, a: Address)
    requires LedgerOk(l) && ApplyAll(rules, l, steps).Ok? && rules.params.beta >= 1
    requires Steady(rules, l, steps, a)
    ensures var was, became := Get(l, a), Get(ApplyAll(rules, l, steps).value, a);
      Charged(rules, l, steps, a) + became.rc <= was.rc + rules.params.beta * was.stake * Climb(rules, l, steps, a)
    decreases |steps|
  {
    hide ApplyTx, ChargeOf, ClimbOf;
    if steps == [] {
      assert rules.params.beta * Get(l, a).stake * 0 == 0;
    } else {
      var next := ApplyTx(rules, l, steps[0]).value;
      BucketStep(rules, l, steps[0], a);
      AppliedOutcome(rules, l, steps[0]);
      TokenBucket(rules, next, steps[1..], a);
      MulSum(rules.params.beta * Get(l, a).stake, ClimbOf(l, steps[0], a), Climb(rules, next, steps[1..], a));
    }
  }

  lemma MulSum(r: int, x: int, y: int)
    ensures r * (x + y) == r * x + r * y
  {
  }

  /** From its first regeneration on, an account is held to its cap plus the rate, whatever it started with. */
  lemma BucketAfterFirst(rules: Rules, l: Accounts, steps: seq<Step>, a: Address)
    requires LedgerOk(l) && ApplyAll(rules, l, steps).Ok? && rules.params.beta >= 1
    requires steps != [] && steps[0].tx.from == a && Steady(rules, l, steps, a)
    ensures var stake, became := Get(l, a).stake, Get(ApplyAll(rules, l, steps).value, a);
      var rest := Climb(rules, ApplyTx(rules, l, steps[0]).value, steps[1..], a);
      Charged(rules, l, steps, a) + became.rc <= rules.params.alpha * stake + rules.params.beta * stake * rest
  {
    hide ApplyTx, Rc.Params.RegenRC, Climb;
    var was, next := Get(l, a), ApplyTx(rules, l, steps[0]).value;
    AppliedOutcome(rules, l, steps[0]);
    TokenBucket(rules, next, steps[1..], a);
    rules.params.RegenBounded(was.rc, was.stake, was.lastTime, steps[0].now);
  }

  /** a's clock never runs back in the run. */
  ghost predicate Forward(rules: Rules, l: Accounts, steps: seq<Step>, a: Address)
    requires ApplyAll(rules, l, steps).Ok?
    decreases |steps|
  {
    steps != [] ==>
      && (steps[0].tx.from == a ==> steps[0].now >= Get(l, a).lastTime)
      && Forward(rules, ApplyTx(rules, l, steps[0]).value, steps[1..], a)
  }

  /** Then the clock has moved by the time that has passed. */
  lemma {:induction false} ClimbIsElapsed(rules: Rules, l: Accounts, steps: seq<Step>, a: Address)
    requires LedgerOk(l) && ApplyAll(rules, l, steps).Ok? && Forward(rules, l, steps, a)
    ensures Climb(rules, l, steps, a) == Get(ApplyAll(rules, l, steps).value, a).lastTime - Get(l, a).lastTime
    decreases |steps|
  {
    hide ApplyTx, Rc.Params.RegenRC;
    if steps != [] {
      var next := ApplyTx(rules, l, steps[0]).value;
      AppliedOutcome(rules, l, steps[0]);
      if steps[0].tx.from != a {
        assert SameButBalanceAndCode(Get(l, a), Get(next, a));
      }
      ClimbIsElapsed(rules, next, steps[1..], a);
    }
  }

  // ----- no stake, no transactions -----

  lemma StakelessCannotSend(rules: Rules, l: Accounts, s: Step)
    requires LedgerOk(l) && rules.params.cSize >= 1 && Len64(Encoding.TxBytes(s.tx)) > 0
    requires Get(l, s.tx.from).stake == 0
    ensures ApplyTx(rules, l, s).Err?
  {
    hide PayloadCodec.DecodePayload, Rc.Params.RegenRC, Rc.Params.RCMax, ApplyTx, Settle, Encoding.TxBytes;
    hide PayloadEffect;
    if ApplyTx(rules, l, s).Ok? {
      var sender, e := Stages(rules, l, s);
      EffectKeeps(l, sender, s.tx, PayloadOf(s.tx), s.outcome);
      EmptyBucket(rules.params, Get(l, s.tx.from).rc, Get(l, s.tx.from).lastTime, s.now);
      CostPositive(rules.params, Len64(Encoding.TxBytes(s.tx)), e.instructions, e.stateWrites);
      ChargeNeedsCredits(rules, s.tx, e);
      assert false;
    }
  }

  lemma EmptyBucket(params: Rc.Params, rc: uint64, last: int64, now: int64)
    ensures params.RegenRC(rc, 0, last, now) == 0
  {
    assert params.alpha * 0 == 0;
  }

  lemma CostPositive(params: Rc.Params, size: uint64, instructions: uint64, writes: uint64)
    requires params.cSize >= 1 && size >= 1
    ensures params.CostOf(size, instructions, writes) >= 1
  {
    Rc.MulNonNegative(params.cSize, size);
    Rc.MulNonNegative(params.cCompute, instructions);
    Rc.MulNonNegative(params.cStorage, writes);
  }

  lemma ChargeNeedsCredits(rules: Rules, tx: Transaction, e: Effect)
    requires Settle(rules, tx, e).Ok?
    ensures ExecutionCost(rules, tx, e) <= e.sender.rc
  {
  }

  /**
   * An account without stake never regains any: its credits are capped at zero, so no
   * transaction of its own, staking included, can ever be paid for.
   */
  lemma {:induction false} StakelessForever(rules: Rules, l: Accounts, steps: seq<Step>, a: Address)
    requires LedgerOk(l) && rules.params.cSize >= 1 && Get(l, a).stake == 0 && ApplyAll(rules, l, steps).Ok?
    requires forall i :: 0 <= i < |steps| ==> Len64(Encoding.TxBytes(steps[i].tx)) > 0
    ensures CountFrom(steps, a) == 0 && Get(ApplyAll(rules, l, steps).value, a).stake == 0
    decreases |steps|
  {
    hide ApplyTx, Encoding.TxBytes;
    if steps != [] {
      var next := ApplyTx(rules, l, steps[0]).value;
      if steps[0].tx.from == a {
        StakelessCannotSend(rules, l, steps[0]);
        assert false;
      }
      AppliedOutcome(rules, l, steps[0]);
      assert SameButBalanceAndCode(Get(l, a), Get(next, a));
      StakelessForever(rules, next, steps[1..], a);
    }
  }
}
