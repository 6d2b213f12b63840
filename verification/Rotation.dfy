/** Whose turn it is to propose (pkg/consensus/hotstuff.go, isExpectedProposerLocked). */
module Rotation {
  import opened Wrappers
  import opened Machine
  import opened Validators

  /** Power of the first k validators. */
  function Prefix(vs: seq<Seat>, k: nat): nat
    requires k <= |vs|
  {
    if k == 0 then 0 else Prefix(vs, k - 1) + vs[k - 1].power
  }

  /** The first validator from k on whose running total, a uint64, exceeds seed. */
  function Chosen(vs: seq<Seat>, seed: nat, k: nat): (r: Option<nat>)
    requires k <= |vs|
    ensures r.Some? ==> k <= r.value < |vs|
    decreases |vs| - k
  {
    if k == |vs| then None
    else if seed < Wrap64(Prefix(vs, k + 1)) then Some(k)
    else Chosen(vs, seed, k + 1)
  }

  function Proposer(vset: ValidatorSet, turn: uint64): Option<Address> {
    if |vset.validators| == 0 || vset.totalPower == 0 then None
    else
      match Chosen(vset.validators, turn % vset.totalPower, 0)
      case None => None
      case Some(k) => Some(vset.validators[k].operator)
  }

  lemma NextPrefix(vs: seq<Seat>, k: nat)
    requires k < |vs|
    ensures Wrap64(Wrap64(Prefix(vs, k)) + vs[k].power) == Wrap64(Prefix(vs, k + 1))
  {
    WrapAdd(Prefix(vs, k), vs[k].power);
  }

  method IsExpectedProposer(vset: ValidatorSet, height: uint64, round: uint64, addr: Address) returns (ok: bool)
    ensures ok <==> Proposer(vset, Wrap64(height + round)) == Some(addr)
  {
    if |vset.validators| == 0 {
      return false;
    }
    if vset.totalPower == 0 {
      return false;
    }
    hide Prefix;
    PrefixStart(vset.validators);
    var seed := Wrap64(height + round) % vset.totalPower;
    var acc: uint64 := 0;
    for k := 0 to |vset.validators|
      invariant acc == Wrap64(Prefix(vset.validators, k))
      invariant Chosen(vset.validators, seed, 0) == Chosen(vset.validators, seed, k)
    {
      NextPrefix(vset.validators, k);
      acc := Wrap64(acc + vset.validators[k].power);
      if seed < acc {
        return vset.validators[k].operator == addr;
      }
    }
    ok := false;
  }

  // ----- exactly one proposer -----

  lemma {:induction false} PrefixIsPower(vs: seq<Seat>, k: nat)
    requires k <= |vs|
    ensures Prefix(vs, k) == PowerOf(vs[..k])
  {
    if k > 0 {
      PrefixIsPower(vs, k - 1);
      PowerSnoc(vs[..k - 1], vs[k - 1], Anyone());
      assert vs[..k] == vs[..k - 1] + [vs[k - 1]];
    }
  }

  lemma AllPower(vs: seq<Seat>)
    ensures Prefix(vs, |vs|) == PowerOf(vs)
  {
    PrefixIsPower(vs, |vs|);
    assert vs[..|vs|] == vs;
  }

  lemma {:induction false} SomeoneChosen(vs: seq<Seat>, seed: nat, k: nat)
    requires k < |vs| && seed < Wrap64(Prefix(vs, |vs|))
    ensures Chosen(vs, seed, k).Some?
    decreases |vs| - k
  {
    if k + 1 < |vs| {
      SomeoneChosen(vs, seed, k + 1);
    }
  }

  /** While anyone has power, every turn has one proposer, and it is registered. */
  lemma OneProposer(t: Table, vset: ValidatorSet, turn: uint64)
    requires IsValidatorSet(t, vset) && vset.totalPower > 0
    ensures Proposer(vset, turn).Some? && Proposer(vset, turn).value in t
  {
    hide PowerOf, Wrap64;
    ProposerRegistered(t, vset, turn);
    AllPower(vset.validators);
    NoPower();
    SomeoneChosen(vset.validators, turn % vset.totalPower, 0);
  }

  lemma ProposerRegistered(t: Table, vset: ValidatorSet, turn: uint64)
    requires IsValidatorSet(t, vset)
    ensures Proposer(vset, turn).Some? ==> Proposer(vset, turn).value in t
  {
    hide PowerOf, Wrap64, Ahead;
  }

  lemma NoPower()
    ensures Wrap64(PowerOf([])) == 0
  {
  }

  // ----- fairness -----

  lemma {:induction false} PrefixGrows(vs: seq<Seat>, j: nat, k: nat)
    requires j <= k <= |vs|
    ensures Prefix(vs, j) <= Prefix(vs, k)
    decreases k
  {
    if j < k {
      PrefixGrows(vs, j, k - 1);
    }
  }

  /** Without overflow a validator's seeds are an interval as long as its power. */
  lemma {:induction false} ChosenExactly(vs: seq<Seat>, seed: nat, k: nat, i: nat)
    requires k <= i < |vs| && Prefix(vs, |vs|) <= MAX64 && Prefix(vs, k) <= seed
    ensures Chosen(vs, seed, k) == Some(i) <==> Prefix(vs, i) <= seed < Prefix(vs, i + 1)
    decreases |vs| - k
  {
    PrefixGrows(vs, k + 1, |vs|);
    if seed < Prefix(vs, k + 1) {
      PrefixGrows(vs, k + 1, i + 1);
      if k < i {
        PrefixGrows(vs, k + 1, i);
      }
    } else if k < i {
      ChosenExactly(vs, seed, k + 1, i);
    } else {
      assert Chosen(vs, seed, k) == Chosen(vs, seed, k + 1);
    }
  }

  /** How many of the n turns from `start` on have the property. */
  function CountTurns(p: nat -> bool, start: nat, n: nat): nat {
    if n == 0 then 0 else CountTurns(p, start, n - 1) + if p(start + n - 1) then 1 else 0
  }

  lemma {:induction false} CountFromFront(p: nat -> bool, start: nat, n: nat)
    requires n > 0
    ensures CountTurns(p, start, n) == (if p(start) then 1 else 0) + CountTurns(p, start + 1, n - 1)
    decreases n
  {
    if n > 1 {
      CountFromFront(p, start, n - 1);
    }
  }

  function Later(k: nat, m: nat): nat { k + m }

  ghost predicate Periodic(p: nat -> bool, m: nat) { forall k: nat {:trigger Later(k, m)} :: p(Later(k, m)) == p(k) }

  /** A property with period m holds equally often in every window of m turns. */
  lemma {:induction false} EveryWindow(p: nat -> bool, m: nat, start: nat)
    requires m > 0 && Periodic(p, m)
    ensures CountTurns(p, start, m) == CountTurns(p, 0, m)
    decreases start
  {
    if start > 0 {
      EveryWindow(p, m, start - 1);
      CountFromFront(p, start - 1, m);
      assert p(Later(start - 1, m)) == p(start - 1);
    }
  }

  lemma {:induction false} CountInterval(p: nat -> bool, lo: nat, hi: nat, n: nat)
    requires lo <= hi && forall k: nat {:trigger p(k)} :: k < n ==> (p(k) <==> lo <= k < hi)
    ensures CountTurns(p, 0, n) == if n <= lo then 0 else if n <= hi then n - lo else hi - lo
    decreases n
  {
    if n > 0 {
      CountInterval(p, lo, hi, n - 1);
    }
  }

  /** a proposes at turn k, the turns counted without wrap-around. */
  function ProposesAt(vset: ValidatorSet, a: Address): nat -> bool {
    (k: nat) => Proposer(vset, Wrap64(k)) == Some(a)
  }

  /** a's seed interval decides whether a turn is a's. */
  function Owns(vset: ValidatorSet, i: nat): nat -> bool
    requires i < |vset.validators| && vset.totalPower > 0
  {
    (k: nat) => Prefix(vset.validators, i) <= k % vset.totalPower < Prefix(vset.validators, i + 1)
  }

  lemma ProposerOwns(t: Table, vset: ValidatorSet, a: Address, turn: uint64)
    requires IsValidatorSet(t, vset) && a in t && 0 < PowerOf(vset.validators) <= MAX64
    ensures vset.totalPower > 0 && vset.indexByAddr[a] < |vset.validators|
    ensures Proposer(vset, turn) == Some(a) <==> Owns(vset, vset.indexByAddr[a])(turn)
  {
    hide PowerOf, Chosen, Prefix;
    var vs, i, seed := vset.validators, vset.indexByAddr[a], turn % vset.totalPower;
    AllPower(vs);
    PrefixStart(vs);
    ChosenExactly(vs, seed, 0, i);
    if Chosen(vs, seed, 0).Some? && vs[Chosen(vs, seed, 0).value].operator == a {
      SeatsDistinct(t, vset, Chosen(vs, seed, 0).value, i);
    }
  }

  lemma PrefixStart(vs: seq<Seat>)
    ensures Prefix(vs, 0) == 0
  {
  }

  lemma {:induction false} SameTurns(p: nat -> bool, q: nat -> bool, start: nat, n: nat)
    requires forall k :: start <= k < start + n ==> p(k) == q(k)
    ensures CountTurns(p, start, n) == CountTurns(q, start, n)
    decreases n
  {
    if n > 0 {
      SameTurns(p, q, start, n - 1);
    }
  }

  lemma OwnsPeriodic(vset: ValidatorSet, i: nat)
    requires i < |vset.validators| && vset.totalPower > 0
    ensures Periodic(Owns(vset, i), vset.totalPower)
  {
    forall k: nat
      ensures Owns(vset, i)(Later(k, vset.totalPower)) == Owns(vset, i)(k)
    {
      ModPeriod(k, vset.totalPower);
    }
  }

  lemma ModPeriod(k: nat, m: nat)
    requires m > 0
    ensures (k + m) % m == k % m
  {
    var q, r := k / m, k % m;
    assert k == m * q + r && k + m == m * (q + 1) + r;
    DivUnique(k + m, m, q + 1, r);
  }

  lemma DivUnique(x: int, m: int, q: int, r: int)
    requires m > 0 && x == m * q + r && 0 <= r < m
    ensures x % m == r
  {
    Magnitude(m, x / m - q);
    assert m * (x / m - q) == r - x % m;
  }

  lemma Magnitude(m: int, d: int)
    requires m > 0
    ensures (d >= 1 ==> m * d >= m) && (d <= -1 ==> m * d <= -m)
  {
  }

  lemma OwnsCount(vset: ValidatorSet, i: nat)
    requires i < |vset.validators| && vset.totalPower == PowerOf(vset.validators) > 0
    ensures CountTurns(Owns(vset, i), 0, vset.totalPower) == vset.validators[i].power
  {
    hide PowerOf;
    var vs, m := vset.validators, vset.totalPower;
    AllPower(vs);
    PrefixGrows(vs, i + 1, |vs|);
    forall k: nat | k < m
      ensures Owns(vset, i)(k) <==> Prefix(vs, i) <= k < Prefix(vs, i + 1)
    {
      DivUnique(k, m, 0, k);
    }
    CountInterval(Owns(vset, i), Prefix(vs, i), Prefix(vs, i + 1), m);
  }

  /**
   * Fair rotation: over any totalPower consecutive turns each validator proposes exactly
   * as often as it has power.
   */
  lemma FairRotation(t: Table, vset: ValidatorSet, a: Address, start: nat)
    requires IsValidatorSet(t, vset) && a in t && 0 < PowerOf(vset.validators) <= MAX64
    requires start + vset.totalPower <= TWO64
    ensures CountTurns(ProposesAt(vset, a), start, vset.totalPower) == t[a].power
  {
    hide PowerOf, Proposer, Owns, Periodic, Prefix, CountTurns;
    var m, i := vset.totalPower, vset.indexByAddr[a];
    ProposerOwns(t, vset, a, 0);
    forall k | start <= k < start + m
      ensures ProposesAt(vset, a)(k) == Owns(vset, i)(k)
    {
      ProposerOwns(t, vset, a, k);
    }
    SameTurns(ProposesAt(vset, a), Owns(vset, i), start, m);
    OwnsPeriodic(vset, i);
    EveryWindow(Owns(vset, i), m, start);
    OwnsCount(vset, i);
  }
}
