/** Pending transactions and the selection of a block's contents (pkg/mempool/mempool.go). */
module TxPool {
  import opened Wrappers
  import opened Machine
  import opened Types
  import opened CandidateHeap
  import opened Bytewise
  import Auth
  import Encoding
  import PayloadCodec

  /** What GetAccount of the mempool's state view answers. */
  datatype Lookup = Failed | Missing | Found(account: Account)

  type View = Address -> Lookup
  type Pool = map<Address, seq<Transaction>>

  /** A sender during selection: its account as already spent, and the next queue position. */
  datatype SenderState = SenderState(nonce: uint64, rc: uint64, cursor: nat, queue: seq<Transaction>)

  type Senders = map<Address, SenderState>

  /** A selection as it unfolds: the senders before and after each pick, who is picked, and what is taken. */
  datatype Run = Run(states: seq<Senders>, picks: seq<Address>, txs: seq<Transaction>) {
    ghost function Last(): Senders
      requires |states| == |picks| + 1
    {
      states[|picks|]
    }

    ghost function Then(a: Address, tx: Transaction, next: Senders): Run {
      Run(states + [next], picks + [a], txs + [tx])
    }
  }

  ghost predicate NonceSorted(q: seq<Transaction>) {
    forall i, j :: 0 <= i < j < |q| ==> q[i].nonce < q[j].nonce
  }

  datatype Refusal =
    | InvalidParties | ViewError | BadPayload | BadKey | BadSignature
    | StaleNonce | CostError | InsufficientRC | DuplicateNonce

  /** t's nonce is already queued. */
  ghost predicate HasNonce(q: seq<Transaction>, n: uint64) { exists i :: 0 <= i < |q| && q[i].nonce == n }

  function QueueOf(pool: Pool, a: Address): seq<Transaction> { if a in pool then pool[a] else [] }

  /**
   * Every queue belongs to its key and is strictly sorted by nonce, and every transaction names two
   * parties and decodes.
   */
  ghost predicate PoolOk(pool: Pool) { forall a :: a in pool ==> QueueOk(a, pool[a]) }

  ghost predicate QueueOk(a: Address, q: seq<Transaction>) {
    && NonceSorted(q)
    && forall i :: 0 <= i < |q| ==>
         q[i].from == a != [] && q[i].to != [] && PayloadCodec.DecodePayload(q[i].payload).Some?
  }

  ghost predicate ViewFails(pool: Pool, view: View) { exists a :: a in pool && view(a).Failed? }

  /** The senders of `among` that SelectForBlock starts from. */
  function InitialAmong(pool: Pool, view: View, among: set<Address>): Senders {
    map a | a in among && a in pool && view(a).Found? && pool[a] != [] ::
      SenderState(view(a).account.nonce, view(a).account.rc, 0, pool[a])
  }

  function Initial(pool: Pool, view: View): Senders { InitialAmong(pool, view, pool.Keys) }

  predicate Queued(ss: Senders, a: Address, t: Transaction) { a in ss && t in ss[a].queue }

  /** No transaction of one sender hashes like a transaction of another. */
  ghost predicate HashesDistinct(ss: Senders, crypto: Auth.Crypto) {
    forall a, b, t, u {:trigger Queued(ss, a, t), Queued(ss, b, u)} ::
      Queued(ss, a, t) && Queued(ss, b, u) && a != b ==>
        Auth.HashTransaction(crypto, t) != Auth.HashTransaction(crypto, u)
  }

  /** The injected cost function and hash. */
  datatype Selector = Selector(cost: Transaction -> Option<uint64>, crypto: Auth.Crypto) {

    /** The next transaction has the nonce the account expects. */
    predicate Ready(st: SenderState) {
      st.cursor < |st.queue| && st.queue[st.cursor].nonce == st.nonce
    }

    predicate Fails(st: SenderState) { Ready(st) && cost(st.queue[st.cursor]).None? }

    predicate Eligible(st: SenderState) {
      Ready(st) && cost(st.queue[st.cursor]).Some? && cost(st.queue[st.cursor]).value <= st.rc
    }

    function Head(a: Address, st: SenderState): Item
      requires Eligible(st)
    {
      var tx := st.queue[st.cursor];
      Item(tx, cost(tx).value, Auth.HashTransaction(crypto, tx), a)
    }

    function Advance(st: SenderState): SenderState
      requires Eligible(st)
    {
      SenderState(Wrap64(st.nonce + 1), st.rc - cost(st.queue[st.cursor]).value, st.cursor + 1, st.queue)
    }

    // ----- the simple algorithm: rescan every sender, take the best eligible head -----

    ghost predicate AnyFails(ss: Senders) { exists a {:trigger Fails(ss[a])} :: a in ss && Fails(ss[a]) }

    ghost predicate AnyEligible(ss: Senders) { exists a {:trigger Eligible(ss[a])} :: a in ss && Eligible(ss[a]) }

    ghost predicate IsBest(ss: Senders, a: Address) {
      && a in ss && Eligible(ss[a])
      && forall b {:trigger Head(b, ss[b])} :: b in ss && Eligible(ss[b]) ==> NotAfter(Head(a, ss[a]), Head(b, ss[b]))
    }

    function Take(ss: Senders, a: Address): Senders {
      if a in ss && Eligible(ss[a]) then ss[a := Advance(ss[a])] else ss
    }

    ghost function SimpleSelect(ss: Senders, max: nat): Option<seq<Transaction>>
      decreases max
    {
      if AnyFails(ss) then None
      else if max == 0 || !AnyEligible(ss) then Some([])
      else
        var a := Best(ss);
        Prepend([Head(a, ss[a]).tx], SimpleSelect(Take(ss, a), max - 1))
    }

    ghost function Best(ss: Senders): (a: Address)
      requires AnyEligible(ss)
      ensures IsBest(ss, a)
    {
      BestExists(ss);
      var a :| IsBest(ss, a);
      a
    }

    lemma BestExists(ss: Senders)
      requires AnyEligible(ss)
      ensures exists a :: IsBest(ss, a)
    {
      var a :| a in ss && Eligible(ss[a]);
      var best := BestAmong(ss, ss.Keys, a);
      assert IsBest(ss, best);
    }

    lemma {:induction false} BestAmong(ss: Senders, among: set<Address>, seed: Address) returns (best: Address)
      requires among <= ss.Keys && seed in ss && Eligible(ss[seed])
      ensures best in ss && Eligible(ss[best])
      ensures NotAfter(Head(best, ss[best]), Head(seed, ss[seed]))
      ensures forall b :: b in among && Eligible(ss[b]) ==> NotAfter(Head(best, ss[best]), Head(b, ss[b]))
      decreases among
    {
      best := seed;
      NotAfterTotal(Head(seed, ss[seed]), Head(seed, ss[seed]));
      if among != {} {
        var x :| x in among;
        best := BestAmong(ss, among - {x}, seed);
        if Eligible(ss[x]) && !NotAfter(Head(best, ss[best]), Head(x, ss[x])) {
          NotAfterTotal(Head(best, ss[best]), Head(x, ss[x]));
          var was := best;
          best := x;
          NotAfterTotal(Head(x, ss[x]), Head(x, ss[x]));
          NotAfterTransitive(Head(x, ss[x]), Head(was, ss[was]), Head(seed, ss[seed]));
          forall b | b in among && Eligible(ss[b])
            ensures NotAfter(Head(x, ss[x]), Head(b, ss[b]))
          {
            if b != x {
              NotAfterTransitive(Head(x, ss[x]), Head(was, ss[was]), Head(b, ss[b]));
            }
          }
        }
      }
    }

    // ----- runs -----

    /** From senders s, the best head tx, a's, is taken. */
    ghost predicate Picked(s: Senders, a: Address, tx: Transaction, next: Senders) {
      !AnyFails(s) && IsBest(s, a) && tx == Head(a, s[a]).tx && next == Take(s, a)
    }

    ghost predicate Greedy(run: Run) {
      && |run.states| == |run.picks| + 1 && |run.txs| == |run.picks|
      && forall k {:trigger run.picks[k]} :: 0 <= k < |run.picks| ==>
           Picked(run.states[k], run.picks[k], run.txs[k], run.states[k + 1])
    }

    /**
     * run is a greedy run from ss to its end, and r what it returns: it stops only when the
     * block is full, when nothing is eligible any more, or with an error when a transaction
     * whose turn has come cannot be costed.
     */
    ghost predicate Selection(ss: Senders, max: nat, run: Run, r: Option<seq<Transaction>>) {
      && Greedy(run) && run.states[0] == ss && |run.picks| <= max
      && if AnyFails(run.Last()) then r == None
         else r == Some(run.txs) && (|run.picks| == max || !AnyEligible(run.Last()))
    }

    lemma RunExtends(run: Run, a: Address, tx: Transaction, next: Senders)
      requires Greedy(run) && Picked(run.Last(), a, tx, next)
      ensures Greedy(run.Then(a, tx, next)) && run.Then(a, tx, next).Last() == next
    {
      var longer := run.Then(a, tx, next);
      forall k {:trigger longer.picks[k]} | 0 <= k < |longer.picks|
        ensures Picked(longer.states[k], longer.picks[k], longer.txs[k], longer.states[k + 1])
      {
        if k < |run.picks| {
          assert longer.picks[k] == run.picks[k];
        }
      }
    }

    lemma BestUnique(ss: Senders, a: Address, b: Address)
      requires HashesDistinct(ss, crypto) && IsBest(ss, a) && IsBest(ss, b)
      ensures a == b
    {
      NotAfterAntisymmetric(Head(a, ss[a]), Head(b, ss[b]));
      assert Queued(ss, a, Head(a, ss[a]).tx) && Queued(ss, b, Head(b, ss[b]).tx);
    }

    lemma DistinctTake(s: Senders, a: Address)
      requires HashesDistinct(s, crypto)
      ensures HashesDistinct(Take(s, a), crypto)
    {
      forall b, t | Queued(Take(s, a), b, t)
        ensures Queued(s, b, t)
      {
      }
    }

    lemma SimpleStep(s: Senders, max: nat, a: Address, tx: Transaction, next: Senders)
      requires HashesDistinct(s, crypto) && Picked(s, a, tx, next) && max > 0
      ensures SimpleSelect(s, max) == Prepend([tx], SimpleSelect(next, max - 1))
      ensures HashesDistinct(next, crypto)
    {
      BestUnique(s, a, Best(s));
      DistinctTake(s, a);
    }

    /** What remains of a result after its first k transactions. */
    function Remaining(r: Option<seq<Transaction>>, k: nat): Option<seq<Transaction>>
      requires r.Some? ==> k <= |r.value|
    {
      if r.None? then None else Some(r.value[k..])
    }

    lemma SimpleAtEnd(ss: Senders, max: nat, run: Run, r: Option<seq<Transaction>>)
      requires Selection(ss, max, run, r)
      ensures SimpleSelect(run.Last(), max - |run.picks|) == Remaining(r, |run.picks|)
    {
      assert run.txs[|run.picks|..] == [];
    }

    lemma RemainingStep(r: Option<seq<Transaction>>, k: nat)
      requires r.Some? ==> k < |r.value|
      ensures r.Some? ==> Remaining(r, k) == Prepend([r.value[k]], Remaining(r, k + 1))
    {
      if r.Some? {
        assert r.value[k..] == [r.value[k]] + r.value[k + 1..];
      }
    }

    lemma SimpleBefore(s: Senders, max: nat, a: Address, tx: Transaction, next: Senders, r: Option<seq<Transaction>>,
                       k: nat)
      requires HashesDistinct(s, crypto) && Picked(s, a, tx, next) && max > 0
      requires r.Some? ==> k < |r.value| && r.value[k] == tx
      requires SimpleSelect(next, max - 1) == Remaining(r, k + 1)
      ensures SimpleSelect(s, max) == Remaining(r, k)
    {
      SimpleStep(s, max, a, tx, next);
      RemainingStep(r, k);
    }

    ghost predicate Chained(run: Run) {
      && |run.states| == |run.picks| + 1
      && forall k {:trigger run.picks[k]} :: 0 <= k < |run.picks| ==>
           run.states[k + 1] == Take(run.states[k], run.picks[k])
    }

    lemma {:induction false} DistinctAlong(run: Run, k: nat)
      requires Chained(run) && k <= |run.picks| && HashesDistinct(run.states[0], crypto)
      ensures HashesDistinct(run.states[k], crypto)
      decreases k
    {
      hide HashesDistinct, Selector.Eligible;
      if k > 0 {
        DistinctAlong(run, k - 1);
        DistinctTake(run.states[k - 1], run.picks[k - 1]);
      }
    }

    lemma GreedyChained(run: Run)
      requires Greedy(run)
      ensures Chained(run)
    {
    }

    lemma GreedyShape(run: Run)
      requires Greedy(run)
      ensures |run.states| == |run.picks| + 1 && |run.txs| == |run.picks|
    {
    }

    lemma PickedAt(run: Run, k: nat)
      requires Greedy(run) && k < |run.picks|
      ensures Picked(run.states[k], run.picks[k], run.txs[k], run.states[k + 1])
    {
    }

    lemma {:induction false} SimpleFrom(run: Run, max: nat, r: Option<seq<Transaction>>, k: nat)
      requires Greedy(run) && k <= |run.picks| <= max && (r.Some? ==> r.value == run.txs)
      requires HashesDistinct(run.states[0], crypto)
      requires SimpleSelect(run.Last(), max - |run.picks|) == Remaining(r, |run.picks|)
      ensures SimpleSelect(run.states[k], max - k) == Remaining(r, k)
      decreases |run.picks| - k
    {
      hide Selector.SimpleSelect, Selector.Greedy, Selector.Remaining, Selector.Picked, HashesDistinct;
      GreedyShape(run);
      if k < |run.picks| {
        GreedyChained(run);
        DistinctAlong(run, k);
        SimpleFrom(run, max, r, k + 1);
        PickedAt(run, k);
        SimpleBefore(run.states[k], max - k, run.picks[k], run.txs[k], run.states[k + 1], r, k);
      }
    }

    /**
     * At a's turn it has a transaction due that no other sender's outbids: any other sender's
     * next transaction that is due and paid for costs less, or as much and hashes no smaller.
     */
    ghost predicate Outbids(ss: Senders, a: Address) {
      && a in ss && ss[a].cursor < |ss[a].queue|
      && forall b {:trigger ss[b].cursor} :: b in ss && ss[b].cursor < |ss[b].queue| ==>
           var t, u := ss[a].queue[ss[a].cursor], ss[b].queue[ss[b].cursor];
           && cost(t).Some?
           && (u.nonce == ss[b].nonce && cost(u).Some? && cost(u).value <= ss[b].rc ==>
                 cost(t).value > cost(u).value
                 || (cost(t).value == cost(u).value
                     && LexLeq(crypto.sha(Encoding.TxBytes(t)), crypto.sha(Encoding.TxBytes(u)))))
    }

    lemma BestOutbids(ss: Senders, a: Address)
      requires IsBest(ss, a)
      ensures Outbids(ss, a)
    {
      hide Encoding.TxBytes, NotAfter;
      forall b | b in ss && Eligible(ss[b])
        ensures NotAfter(Head(a, ss[a]), Head(b, ss[b]))
      {
      }
      forall b | b in ss && Eligible(ss[b])
        ensures Head(a, ss[a]).cost > Head(b, ss[b]).cost
                || (Head(a, ss[a]).cost == Head(b, ss[b]).cost
                    && LexLeq(Head(a, ss[a]).hash, Head(b, ss[b]).hash))
      {
        FirstMeans(Head(a, ss[a]), Head(b, ss[b]));
      }
    }

    /** Every transaction of a run is the next one of a sender nobody outbids at that point. */
    lemma PicksOutbid(run: Run)
      requires Greedy(run)
      ensures |run.states| == |run.picks| + 1 && |run.txs| == |run.picks|
      ensures forall k {:trigger run.picks[k]} :: 0 <= k < |run.picks| ==>
                && Outbids(run.states[k], run.picks[k])
                && run.txs[k] == run.states[k][run.picks[k]].queue[run.states[k][run.picks[k]].cursor]
    {
      hide Selector.Outbids;
      forall k {:trigger run.picks[k]} | 0 <= k < |run.picks|
        ensures Outbids(run.states[k], run.picks[k])
      {
        BestOutbids(run.states[k], run.picks[k]);
      }
    }

    /** Every selection is the simple algorithm's, so nothing depends on the order senders are visited. */
    lemma SelectionIsSimple(ss: Senders, max: nat, run: Run, r: Option<seq<Transaction>>)
      requires Selection(ss, max, run, r) && HashesDistinct(ss, crypto)
      ensures r == SimpleSelect(ss, max)
    {
      hide SimpleSelect;
      SimpleAtEnd(ss, max, run, r);
      SimpleFrom(run, max, r, 0);
      assert r.Some? ==> r.value[0..] == r.value;
    }

    // ----- what a selection takes from one sender -----

    /** How many transactions, from the cursor on, the sender's nonce and credits allow. */
    function Takeable(st: SenderState): (n: nat)
      ensures st.cursor <= |st.queue| ==> st.cursor + n <= |st.queue|
      decreases |st.queue| - st.cursor
    {
      if Eligible(st) then 1 + Takeable(Advance(st)) else 0
    }

    /** Total cost of the m transactions from position i on. */
    function CostOfRange(q: seq<Transaction>, i: nat, m: nat): nat
      requires i + m <= |q| && forall k :: i <= k < i + m ==> cost(q[k]).Some?
      decreases m
    {
      if m == 0 then 0 else cost(q[i]).value + CostOfRange(q, i + 1, m - 1)
    }

    /** The m transactions from position i on can be costed and carry consecutive nonces from `nonce`. */
    ghost predicate Consecutive(q: seq<Transaction>, i: nat, m: nat, nonce: uint64) {
      && i + m <= |q|
      && forall k :: i <= k < i + m ==> cost(q[k]).Some? && q[k].nonce == Wrap64(nonce + (k - i))
    }

    /** The next m transactions carry consecutive nonces from the account's and cost no more than its credits. */
    ghost predicate Affordable(st: SenderState, m: nat) {
      Consecutive(st.queue, st.cursor, m, st.nonce) && CostOfRange(st.queue, st.cursor, m) <= st.rc
    }

    lemma ConsecutiveStep(q: seq<Transaction>, i: nat, m: nat, nonce: uint64)
      requires m > 0
      ensures Consecutive(q, i, m, nonce) <==>
                i < |q| && q[i].nonce == nonce && cost(q[i]).Some? && Consecutive(q, i + 1, m - 1, Wrap64(nonce + 1))
    {
      forall k | i < k < i + m && k < |q|
        ensures q[k].nonce == Wrap64(Wrap64(nonce + 1) + (k - (i + 1))) <==> q[k].nonce == Wrap64(nonce + (k - i))
      {
        WrapNext(nonce, k - i - 1);
      }
    }

    lemma AffordableStep(st: SenderState, m: nat)
      requires m > 0
      ensures Affordable(st, m) <==> Eligible(st) && Affordable(Advance(st), m - 1)
    {
      ConsecutiveStep(st.queue, st.cursor, m, st.nonce);
    }

    /** Takeable is the longest affordable prefix. */
    lemma {:induction false} TakeableIsLongest(st: SenderState, m: nat)
      requires st.cursor <= |st.queue|
      ensures Affordable(st, m) <==> m <= Takeable(st)
      decreases |st.queue| - st.cursor
    {
      if m > 0 {
        AffordableStep(st, m);
        if Eligible(st) {
          TakeableIsLongest(Advance(st), m - 1);
        }
      }
    }

    /** The transactions among the first k of the run that were taken from sender a. */
    ghost function ShareOf(run: Run, a: Address, k: nat): seq<Transaction>
      requires |run.txs| == |run.picks| && k <= |run.picks|
    {
      if k == 0 then []
      else ShareOf(run, a, k - 1) + if run.picks[k - 1] == a then [run.txs[k - 1]] else []
    }

    /** Where sender a stands after k picks. */
    ghost predicate StandsAt(first: SenderState, now: SenderState, share: seq<Transaction>) {
      && first.cursor <= now.cursor <= |first.queue| && now.queue == first.queue
      && share == first.queue[first.cursor..now.cursor]
      && Takeable(first) == |share| + Takeable(now)
    }

    lemma StandsStart(first: SenderState)
      requires first.cursor <= |first.queue|
      ensures StandsAt(first, first, [])
    {
    }

    lemma StandsNext(first: SenderState, now: SenderState, share: seq<Transaction>)
      requires StandsAt(first, now, share) && Eligible(now)
      ensures StandsAt(first, Advance(now), share + [now.queue[now.cursor]])
    {
    }

    lemma {:induction false} ShareAlong(run: Run, a: Address, k: nat)
      requires Greedy(run) && k <= |run.picks| && a in run.states[0]
      requires run.states[0][a].cursor <= |run.states[0][a].queue|
      ensures a in run.states[k] && StandsAt(run.states[0][a], run.states[k][a], ShareOf(run, a, k))
      decreases k
    {
      hide Selector.StandsAt, Selector.Picked, Selector.Greedy, Selector.Eligible;
      GreedyShape(run);
      if k == 0 {
        StandsStart(run.states[0][a]);
      } else {
        ShareAlong(run, a, k - 1);
        PickedAt(run, k - 1);
        ShareNext(run.states[0][a], run.states[k - 1], run.picks[k - 1], run.txs[k - 1], run.states[k], a,
          ShareOf(run, a, k - 1));
      }
    }

    lemma ShareNext(first: SenderState, s: Senders, b: Address, tx: Transaction, next: Senders, a: Address,
                    share: seq<Transaction>)
      requires Picked(s, b, tx, next) && a in s && StandsAt(first, s[a], share)
      ensures a in next && StandsAt(first, next[a], share + if b == a then [tx] else [])
    {
      if b == a {
        StandsNext(first, s[a], share);
      } else {
        assert share + [] == share;
      }
    }

    /**
     * From each sender a successful selection takes a prefix of its queue, never more than the
     * longest affordable one, and exactly that one whenever the block has room left.
     */
    lemma SenderShare(ss: Senders, max: nat, run: Run, out: seq<Transaction>, a: Address)
      requires Selection(ss, max, run, Some(out)) && a in ss && ss[a].cursor == 0
      ensures var share := ShareOf(run, a, |run.picks|);
        && |share| <= Takeable(ss[a]) && share == ss[a].queue[..|share|]
        && (|out| < max ==> |share| == Takeable(ss[a]))
    {
      ShareAlong(run, a, |run.picks|);
      var last := run.Last()[a];
      if |out| < max {
        assert !Eligible(last);
      }
    }

    // ----- the heap form -----

    /** The eligible heads of some senders: what the heap holds. */
    function Heads(ss: Senders, among: set<Address>): set<Item> {
      set a | a in among && a in ss && Eligible(ss[a]) :: Head(a, ss[a])
    }

    lemma HeadsTake(ss: Senders, a: Address)
      requires a in ss && Eligible(ss[a])
      ensures var next := Advance(ss[a]);
        Heads(Take(ss, a), ss.Keys)
          == Heads(ss, ss.Keys) - {Head(a, ss[a])} + (if Eligible(next) then {Head(a, next)} else {})
      ensures Head(a, ss[a]) in Heads(ss, ss.Keys)
      ensures Eligible(Advance(ss[a])) ==> Head(a, Advance(ss[a])) !in Heads(ss, ss.Keys) - {Head(a, ss[a])}
    {
      var next, after := Advance(ss[a]), Take(ss, a);
      var rest := Heads(ss, ss.Keys) - {Head(a, ss[a])};
      forall x | x in Heads(after, ss.Keys)
        ensures x in rest || (Eligible(next) && x == Head(a, next))
      {
        var b :| b in ss && b in after && Eligible(after[b]) && x == Head(b, after[b]);
      }
      forall x | x in rest
        ensures x in Heads(after, ss.Keys)
      {
        var b :| b in ss && Eligible(ss[b]) && x == Head(b, ss[b]);
        assert after[b] == ss[b];
      }
      if Eligible(next) {
        assert after[a] == next;
        assert Head(a, next) in Heads(after, ss.Keys);
      }
    }

    lemma HeadsAdd(ss: Senders, done: set<Address>, a: Address)
      requires a in ss && a !in done
      ensures Heads(ss, done + {a}) == Heads(ss, done) + if Eligible(ss[a]) then {Head(a, ss[a])} else {}
      ensures Eligible(ss[a]) ==> Head(a, ss[a]) !in Heads(ss, done)
    {
      if Eligible(ss[a]) {
        assert Head(a, ss[a]) in Heads(ss, done + {a});
      }
    }

    /** Taking from a only changes whether a's own next transaction can be costed. */
    lemma FailsAfter(ss: Senders, a: Address)
      requires !AnyFails(ss) && a in ss && Eligible(ss[a])
      ensures AnyFails(Take(ss, a)) <==> Fails(Take(ss, a)[a])
    {
      forall b | b in Take(ss, a) && b != a
        ensures !Fails(Take(ss, a)[b])
      {
        assert b in ss && Take(ss, a)[b] == ss[b];
      }
    }

    lemma HeapEmpty(ss: Senders, items: seq<Item>)
      requires multiset(items) == multiset(Heads(ss, ss.Keys))
      ensures items == [] ==> !AnyEligible(ss)
    {
      if AnyEligible(ss) {
        var a :| a in ss && Eligible(ss[a]);
        assert Head(a, ss[a]) in multiset(Heads(ss, ss.Keys));
      }
    }

    /** The item popped is the head of a best sender. */
    lemma PoppedIsBest(ss: Senders, items: seq<Item>, x: Item)
      requires multiset(items) == multiset(Heads(ss, ss.Keys))
      requires x in items && forall y :: y in items ==> NotAfter(x, y)
      ensures IsBest(ss, x.sender) && x == Head(x.sender, ss[x.sender])
    {
      assert x in multiset(items);
      forall b | b in ss && Eligible(ss[b])
        ensures NotAfter(x, Head(b, ss[b]))
      {
        assert Head(b, ss[b]) in multiset(Heads(ss, ss.Keys));
        assert Head(b, ss[b]) in multiset(items);
      }
    }
  }

  class Mempool {
    var pool: Pool
    const selector: Selector

    constructor (selector: Selector)
      ensures pool == map[] && this.selector == selector
    {
      this.selector := selector;
      pool := map[];
    }

    /** The checks AddTx makes before it looks at the queue. */
    function Admission(txn: Transaction, view: View): Option<Refusal> {
      if txn.from == [] || txn.to == [] then Some(InvalidParties)
      else if view(txn.from).Failed? then Some(ViewError)
      else
        var acct := if view(txn.from).Missing? then ZeroAccount(txn.from) else view(txn.from).account;
        var env := PayloadCodec.DecodePayload(txn.payload);
        if env.None? then Some(BadPayload)
        else
          var key := Auth.ResolveSenderPubKey(selector.crypto, txn, acct.pubKey, env.value.senderPubKey);
          if key.None? then Some(BadKey)
          else if !Auth.SignatureValid(selector.crypto, txn, key.value.pubKey) then Some(BadSignature)
          else if txn.nonce < acct.nonce then Some(StaleNonce)
          else if selector.cost(txn).None? then Some(CostError)
          else if acct.rc < selector.cost(txn).value then Some(InsufficientRC)
          else None
    }

    /**
     * What passes the checks before the queue: two parties, a payload that decodes, a key of
     * 32 bytes bound to the sender's address, stored or carried and not at odds with the
     * stored one, a signature of 64 bytes under it, a nonce no older than the account's, and
     * credits for the cost.
     */
    lemma AdmissionMeans(txn: Transaction, view: View)
      ensures Admission(txn, view).None? <==>
                && |txn.from| > 0 && |txn.to| > 0 && !view(txn.from).Failed?
                && PayloadCodec.DecodePayload(txn.payload).Some?
                && var acct := if view(txn.from).Missing? then ZeroAccount(txn.from) else view(txn.from).account;
                var given := PayloadCodec.DecodePayload(txn.payload).value.senderPubKey;
                var key := if |acct.pubKey| > 0 then acct.pubKey else given;
                && |acct.pubKey| in {0, 32} && |given| in {0, 32} && |key| > 0
                && (|acct.pubKey| > 0 && |given| > 0 ==> acct.pubKey == given)
                && selector.crypto.addressOf(key) == Option.Some(txn.from)
                && |txn.signature| == 64
                && selector.crypto.verify(key, Encoding.TxBytes(txn.(signature := [])), txn.signature)
                && txn.nonce >= acct.nonce
                && selector.cost(txn).Some? && selector.cost(txn).value <= acct.rc
    {
      hide PayloadCodec.DecodePayload, Encoding.TxBytes, Auth.ResolveSenderPubKey;
    }

    /** The loop of AddTx: the queue with txn at its place, unless its nonce is taken. */
    method InsertByNonce(queue: seq<Transaction>, txn: Transaction) returns (r: Option<seq<Transaction>>)
      requires NonceSorted(queue)
      ensures r.None? <==> HasNonce(queue, txn.nonce)
      ensures r.Some? ==> NonceSorted(r.value) && multiset(r.value) == multiset(queue) + multiset{txn}
    {
      var i := 0;
      while i < |queue|
        invariant 0 <= i <= |queue|
        invariant forall k :: 0 <= k < i ==> queue[k].nonce < txn.nonce
      {
        if txn.nonce == queue[i].nonce {
          return None;
        }
        if txn.nonce < queue[i].nonce {
          break;
        }
        i := i + 1;
      }
      InsertedSorted(queue, i, txn);
      r := Some(queue[..i] + [txn] + queue[i..]);
    }

    lemma AdmittedParts(txn: Transaction, view: View)
      ensures Admission(txn, view).None? ==>
                txn.from != [] && txn.to != [] && PayloadCodec.DecodePayload(txn.payload).Some?
    {
      hide PayloadCodec.DecodePayload, Auth.ResolveSenderPubKey, Auth.SignatureValid;
    }

    method AddTx(txn: Transaction, view: View) returns (err: Option<Refusal>)
      requires PoolOk(pool)
      modifies this
      ensures PoolOk(pool)
      ensures err.None? <==>
                && |txn.from| > 0 && |txn.to| > 0 && !view(txn.from).Failed?
                && PayloadCodec.DecodePayload(txn.payload).Some?
                && (var acct := if view(txn.from).Missing? then ZeroAccount(txn.from) else view(txn.from).account;
                    var given := PayloadCodec.DecodePayload(txn.payload).value.senderPubKey;
                    var key := if |acct.pubKey| > 0 then acct.pubKey else given;
                    && |acct.pubKey| in {0, 32} && |given| in {0, 32} && |key| > 0
                    && (|acct.pubKey| > 0 && |given| > 0 ==> acct.pubKey == given)
                    && selector.crypto.addressOf(key) == Option.Some(txn.from)
                    && |txn.signature| == 64
                    && selector.crypto.verify(key, Encoding.TxBytes(txn.(signature := [])), txn.signature)
                    && txn.nonce >= acct.nonce
                    && selector.cost(txn).Some? && selector.cost(txn).value <= acct.rc)
                && (txn.from in old(pool) ==> forall t :: t in old(pool)[txn.from] ==> t.nonce != txn.nonce)
      ensures Admission(txn, view).Some? ==> err == Admission(txn, view)
      ensures Admission(txn, view).None? ==>
                err == if HasNonce(QueueOf(old(pool), txn.from), txn.nonce) then Some(DuplicateNonce) else None
      ensures err.Some? ==> pool == old(pool)
      ensures err.None? ==> pool == old(pool)[txn.from := QueueOf(pool, txn.from)]
      ensures err.None? ==> multiset(QueueOf(pool, txn.from)) == multiset(QueueOf(old(pool), txn.from)) + multiset{txn}
    {
      hide Mempool.Admission, PayloadCodec.DecodePayload, Encoding.TxBytes;
      AdmissionMeans(txn, view);
      AdmittedParts(txn, view);
      NonceFree(QueueOf(pool, txn.from), txn.nonce);
      err := Admission(txn, view);
      if err.Some? {
        return;
      }
      var queue := InsertByNonce(QueueOf(pool, txn.from), txn);
      if queue.None? {
        return Some(DuplicateNonce);
      }
      PoolStaysOk(pool, txn, queue.value);
      pool := pool[txn.from := queue.value];
    }

    /** First loop of SelectForBlock: the account and queue of every sender in the pool. */
    method LoadSenders(view: View) returns (r: Option<Senders>)
      ensures r == if ViewFails(pool, view) then None else Some(Initial(pool, view))
    {
      var senders: Senders := map[];
      var todo := pool.Keys;
      while todo != {}
        invariant todo <= pool.Keys
        invariant senders == InitialAmong(pool, view, pool.Keys - todo)
        invariant forall a :: a in pool && a !in todo ==> !view(a).Failed?
      {
        var addr :| addr in todo;
        todo := todo - {addr};
        var acct := view(addr);
        if acct.Failed? {
          return None;
        }
        if acct.Missing? || |pool[addr]| == 0 {
          continue;
        }
        senders := senders[addr := SenderState(acct.account.nonce, acct.account.rc, 0, pool[addr])];
      }
      assert pool.Keys - todo == pool.Keys;
      r := Some(senders);
    }

    /** Second loop: the heap of every sender's first transaction, if its turn has come. */
    method SeedHeap(senders: Senders) returns (ok: bool, h: TxHeap)
      requires forall a :: a in senders ==> senders[a].cursor == 0 && |senders[a].queue| > 0
      ensures fresh(h) && ok == !selector.AnyFails(senders)
      ensures ok ==> HeapOrdered(h.items) && multiset(h.items) == multiset(selector.Heads(senders, senders.Keys))
    {
      h := new TxHeap();
      var seeding := senders.Keys;
      while seeding != {}
        invariant seeding <= senders.Keys && HeapOrdered(h.items)
        invariant multiset(h.items) == multiset(selector.Heads(senders, senders.Keys - seeding))
        invariant forall a :: a in senders && a !in seeding ==> !selector.Fails(senders[a])
      {
        var addr :| addr in seeding;
        var pushed := PushHead(h, senders, addr, senders.Keys - seeding);
        if !pushed {
          return false, h;
        }
        assert senders.Keys - (seeding - {addr}) == senders.Keys - seeding + {addr};
        seeding := seeding - {addr};
      }
      assert senders.Keys - seeding == senders.Keys;
      ok := true;
    }

    /** Body of the second loop: one sender's first transaction joins the heap if its turn has come. */
    method PushHead(h: TxHeap, senders: Senders, addr: Address, ghost done: set<Address>) returns (ok: bool)
      requires addr in senders && addr !in done && senders[addr].cursor == 0 && |senders[addr].queue| > 0
      requires HeapOrdered(h.items) && multiset(h.items) == multiset(selector.Heads(senders, done))
      modifies h
      ensures ok == !selector.Fails(senders[addr])
      ensures ok ==> HeapOrdered(h.items) && multiset(h.items) == multiset(selector.Heads(senders, done + {addr}))
    {
      hide Selector.Heads, HeapOrdered;
      selector.HeadsAdd(senders, done, addr);
      ok := true;
      var st := senders[addr];
      var tx := st.queue[0];
      if tx.nonce != st.nonce {
        return;
      }
      var cost := selector.cost(tx);
      if cost.None? {
        return false;
      }
      if st.rc < cost.value {
        return;
      }
      h.Push(Item(tx, cost.value, Auth.HashTransaction(selector.crypto, tx), addr));
    }

    /** Body of the third loop: the best head is taken and its sender's next transaction considered. */
    method TakeBest(h: TxHeap, senders: Senders) returns (ok: bool, item: Item, now: Senders)
      requires |h.items| > 0 && HeapOrdered(h.items) && !selector.AnyFails(senders)
      requires multiset(h.items) == multiset(selector.Heads(senders, senders.Keys))
      modifies h
      ensures selector.Picked(senders, item.sender, item.tx, now) && ok == !selector.AnyFails(now)
      ensures ok ==> HeapOrdered(h.items) && multiset(h.items) == multiset(selector.Heads(now, now.Keys))
    {
      ghost var items := h.items;
      item := h.Pop();
      selector.PoppedIsBest(senders, items, item);
      ok, now := Advance(h, senders, item);
      selector.FailsAfter(senders, item.sender);
    }

    /** Rest of the third loop's body: spend the popped item locally and push the sender's next one. */
    method Advance(h: TxHeap, senders: Senders, item: Item) returns (ok: bool, now: Senders)
      requires item.sender in senders && selector.Eligible(senders[item.sender])
      requires item == selector.Head(item.sender, senders[item.sender])
      requires HeapOrdered(h.items)
      requires multiset(h.items) == multiset(selector.Heads(senders, senders.Keys)) - multiset{item}
      modifies h
      ensures now == selector.Take(senders, item.sender)
      ensures ok == !selector.Fails(now[item.sender])
      ensures ok ==> HeapOrdered(h.items) && multiset(h.items) == multiset(selector.Heads(now, now.Keys))
    {
      hide Selector.Heads, HeapOrdered;
      selector.HeadsTake(senders, item.sender);
      ok := true;
      var st := senders[item.sender];
      var rc := if st.rc >= item.cost then st.rc - item.cost else 0;
      st := SenderState(Wrap64(st.nonce + 1), rc, st.cursor + 1, st.queue);
      now := senders[item.sender := st];
      assert now.Keys == senders.Keys;
      if st.cursor >= |st.queue| {
        return;
      }
      var next := st.queue[st.cursor];
      if next.nonce != st.nonce {
        return;
      }
      var cost := selector.cost(next);
      if cost.None? {
        return false, now;
      }
      if st.rc < cost.value {
        return;
      }
      h.Push(Item(next, cost.value, Auth.HashTransaction(selector.crypto, next), item.sender));
    }

    method SelectForBlock(max: int, view: View) returns (r: Option<seq<Transaction>>, ghost run: Run)
      ensures max <= 0 ==> r == Some([])
      ensures max > 0 && ViewFails(pool, view) ==> r == None
      ensures max > 0 && !ViewFails(pool, view) ==> selector.Selection(Initial(pool, view), max, run, r)
      ensures max > 0 && !ViewFails(pool, view) ==>
        && |run.states| == |run.picks| + 1 && |run.txs| == |run.picks|
        && forall k {:trigger run.picks[k]} :: 0 <= k < |run.picks| ==>
             && selector.Outbids(run.states[k], run.picks[k])
             && run.txs[k] == run.states[k][run.picks[k]].queue[run.states[k][run.picks[k]].cursor]
    {
      hide Selector.Outbids, Selector.Picked, HeapOrdered;
      run := Run([map[]], [], []);
      if max <= 0 {
        return Some([]), run;
      }
      var loaded := LoadSenders(view);
      if loaded.None? {
        return None, run;
      }
      var senders := loaded.value;
      run := Run([senders], [], []);
      var ok, h := SeedHeap(senders);
      if !ok {
        return None, run;
      }
      var out := [];
      while |h.items| > 0 && |out| < max
        invariant HeapOrdered(h.items) && multiset(h.items) == multiset(selector.Heads(senders, senders.Keys))
        invariant selector.Greedy(run) && run.states[0] == Initial(pool, view) && |run.picks| <= max
        invariant run.txs == out && run.Last() == senders && !selector.AnyFails(senders)
        decreases max - |out|
      {
        var item;
        ok, item, senders := TakeBest(h, senders);
        selector.RunExtends(run, item.sender, item.tx, senders);
        run := run.Then(item.sender, item.tx, senders);
        out := out + [item.tx];
        if !ok {
          selector.PicksOutbid(run);
          return None, run;
        }
      }
      selector.PicksOutbid(run);
      selector.HeapEmpty(senders, h.items);
      r := Some(out);
    }
  }

  lemma NonceFree(q: seq<Transaction>, n: uint64)
    ensures HasNonce(q, n) <==> exists t :: t in q && t.nonce == n
  {
    if t :| t in q && t.nonce == n {
      var i :| 0 <= i < |q| && q[i] == t;
      assert q[i].nonce == n;
    }
  }

  function Prepend(txs: seq<Transaction>, r: Option<seq<Transaction>>): Option<seq<Transaction>> {
    if r.None? then None else Some(txs + r.value)
  }

  lemma InsertedSorted(q: seq<Transaction>, i: nat, t: Transaction)
    requires NonceSorted(q) && i <= |q|
    requires forall k :: 0 <= k < i ==> q[k].nonce < t.nonce
    requires i < |q| ==> t.nonce < q[i].nonce
    ensures NonceSorted(q[..i] + [t] + q[i..]) && !HasNonce(q, t.nonce)
    ensures multiset(q[..i] + [t] + q[i..]) == multiset(q) + multiset{t}
  {
    hide NonceSorted, HasNonce;
    SplitSorted(q, i, t);
    SameTransactions(q[..i], t, q[i..], q);
    SortedAround(q[..i], t, q[i..]);
  }

  lemma SplitSorted(q: seq<Transaction>, i: nat, t: Transaction)
    requires NonceSorted(q) && i <= |q|
    requires forall k :: 0 <= k < i ==> q[k].nonce < t.nonce
    requires i < |q| ==> t.nonce < q[i].nonce
    ensures var before, after := q[..i], q[i..];
      && before + after == q && NonceSorted(before) && NonceSorted(after)
      && (forall k :: 0 <= k < |before| ==> before[k].nonce < t.nonce)
      && (forall k :: 0 <= k < |after| ==> t.nonce < after[k].nonce)
    ensures !HasNonce(q, t.nonce)
  {
    forall k | i <= k < |q|
      ensures t.nonce < q[k].nonce
    {
      assert k == i || q[i].nonce < q[k].nonce;
    }
  }

  lemma SortedAround(before: seq<Transaction>, t: Transaction, after: seq<Transaction>)
    requires NonceSorted(before) && NonceSorted(after)
    requires forall k :: 0 <= k < |before| ==> before[k].nonce < t.nonce
    requires forall k :: 0 <= k < |after| ==> t.nonce < after[k].nonce
    ensures NonceSorted(before + [t] + after)
  {
    var all := before + [t] + after;
    forall j, k | 0 <= j < k < |all|
      ensures all[j].nonce < all[k].nonce
    {
      assert j < |before| ==> all[j] == before[j];
      assert k > |before| ==> all[k] == after[k - |before| - 1];
    }
  }

  lemma SameTransactions(before: seq<Transaction>, t: Transaction, after: seq<Transaction>, q: seq<Transaction>)
    requires before + after == q
    ensures multiset(before + [t] + after) == multiset(q) + multiset{t}
  {
  }

  /**
   * A queue whose first transaction is behind the account's nonce yields nothing, and no
   * transaction that can still be added changes that: nothing ever removes the stale head.
   */
  lemma StaleHeadBlocks(selector: Selector, q: seq<Transaction>, longer: seq<Transaction>, t: Transaction,
                        nonce: uint64, rc: uint64)
    requires NonceSorted(q) && |q| > 0 && q[0].nonce < nonce <= t.nonce
    requires NonceSorted(longer) && multiset(longer) == multiset(q) + multiset{t}
    ensures longer[0] == q[0]
    ensures selector.Takeable(SenderState(nonce, rc, 0, q)) == 0
    ensures selector.Takeable(SenderState(nonce, rc, 0, longer)) == 0
  {
    assert q[0] in multiset(longer) && longer[0] in multiset(longer);
    var i :| 0 <= i < |longer| && longer[i] == q[0];
    HeadIsLeast(q);
    assert longer[0] == t || longer[0] in q;
    assert longer[0].nonce >= longer[i].nonce;
  }

  lemma HeadIsLeast(q: seq<Transaction>)
    requires NonceSorted(q) && |q| > 0
    ensures forall x :: x in q ==> q[0].nonce <= x.nonce
  {
    forall x | x in q
      ensures q[0].nonce <= x.nonce
    {
      var j :| 0 <= j < |q| && q[j] == x;
      assert j == 0 || q[0].nonce < q[j].nonce;
    }
  }

  lemma PoolStaysOk(pool: Pool, t: Transaction, q: seq<Transaction>)
    requires PoolOk(pool) && NonceSorted(q) && multiset(q) == multiset(QueueOf(pool, t.from)) + multiset{t}
    requires t.from != [] && t.to != [] && PayloadCodec.DecodePayload(t.payload).Some?
    ensures PoolOk(pool[t.from := q])
  {
    hide NonceSorted, PayloadCodec.DecodePayload;
    var was := QueueOf(pool, t.from);
    forall i | 0 <= i < |q|
      ensures q[i].from == t.from && q[i].to != [] && PayloadCodec.DecodePayload(q[i].payload).Some?
    {
      assert q[i] in multiset(q);
      assert q[i] == t || q[i] in was;
      if q[i] != t {
        var j :| 0 <= j < |was| && was[j] == q[i];
        assert QueueOk(t.from, pool[t.from]);
      }
    }
    PutQueueOk(pool, t.from, q);
  }

  lemma PutQueueOk(pool: Pool, a: Address, q: seq<Transaction>)
    requires PoolOk(pool) && QueueOk(a, q)
    ensures PoolOk(pool[a := q])
  {
    hide QueueOk;
    var next := pool[a := q];
    forall b | b in next
      ensures QueueOk(b, next[b])
    {
      assert next[b] == if b == a then q else pool[b];
    }
  }
}
