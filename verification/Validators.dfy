/** Registration, delegation and the ordered validator set (pkg/consensus/dpos.go). */
module Validators {
  import opened Wrappers
  import opened Machine
  import opened Bytewise
  import opened Sorting

  type Delegations = map<Address, uint64>

  function Delegated(d: Delegations, a: Address): uint64 { if a in d then d[a] else 0 }

  /** A validator's fields as one value. */
  datatype Entry = Entry(pubKey: Bytes, power: uint64, stake: uint64, delegations: Delegations, commission: nat)

  type Table = map<Address, Entry>

  datatype DposError =
    | BelowMinimum | AlreadyRegistered | Full | NotFound | ZeroAmount | InsufficientDelegation

  // ----- the set handed to consensus -----

  datatype Seat = Seat(operator: Address, pubKey: Bytes, power: uint64, index: uint32)

  datatype ValidatorSet = Ranking(validators: seq<Seat>, totalPower: uint64, indexByAddr: map<Address, uint32>)

  /** Total power of the seats with a property. */
  function PowerWhere(seats: seq<Seat>, p: Seat -> bool): nat {
    if seats == [] then 0 else (if p(seats[0]) then seats[0].power else 0) + PowerWhere(seats[1..], p)
  }

  function Anyone(): Seat -> bool { (s: Seat) => true }

  function PowerOf(seats: seq<Seat>): nat { PowerWhere(seats, Anyone()) }

  /** The order of the set: more power first, then the smaller address. */
  predicate Ahead(x: Seat, y: Seat) {
    if x.power == y.power then LexLess(x.operator, y.operator) else x.power > y.power
  }

  /** Every seat stands ahead of the ones after it. */
  ghost predicate Descending(vs: seq<Seat>) { forall i, j :: 0 <= i < j < |vs| ==> Ahead(vs[i], vs[j]) }

  predicate NotBehind(x: Seat, y: Seat) { !Ahead(y, x) }

  /** set lists the registered validators in order, with their positions and total power. */
  ghost predicate IsValidatorSet(t: Table, s: ValidatorSet) {
    var vs := s.validators;
    && (forall i :: 0 <= i < |vs| ==> vs[i].operator in t && vs[i].index == i)
    && (forall i :: 0 <= i < |vs| ==>
      vs[i].pubKey == t[vs[i].operator].pubKey && vs[i].power == t[vs[i].operator].power)
    && Descending(vs)
    && s.indexByAddr.Keys == t.Keys
    && (forall a :: a in t ==> s.indexByAddr[a] < |vs| && vs[s.indexByAddr[a]].operator == a)
    && s.totalPower == Wrap64(PowerOf(vs))
  }

  lemma {:induction false} PowerConcat(s: seq<Seat>, t: seq<Seat>, p: Seat -> bool)
    ensures PowerWhere(s + t, p) == PowerWhere(s, p) + PowerWhere(t, p)
    decreases |s|
  {
    if s == [] {
      assert s + t == t;
    } else {
      assert (s + t)[1..] == s[1..] + t;
      PowerConcat(s[1..], t, p);
    }
  }

  lemma PowerSnoc(s: seq<Seat>, x: Seat, p: Seat -> bool)
    ensures PowerWhere(s + [x], p) == PowerWhere(s, p) + if p(x) then x.power else 0
  {
    PowerConcat(s, [x], p);
    assert [x][1..] == [];
  }

  lemma Extract(t: seq<Seat>, i: nat, p: Seat -> bool)
    requires i < |t|
    ensures var rest := t[..i] + t[i + 1..];
      && PowerWhere(t, p) == PowerWhere(rest, p) + (if p(t[i]) then t[i].power else 0)
      && multiset(rest) == multiset(t) - multiset{t[i]}
  {
    assert t == t[..i] + [t[i]] + t[i + 1..];
    PowerConcat(t[..i], t[i + 1..], p);
    PowerConcat(t[..i] + [t[i]], t[i + 1..], p);
    PowerSnoc(t[..i], t[i], p);
  }

  lemma {:induction false} PowerPermuted(s: seq<Seat>, t: seq<Seat>, p: Seat -> bool)
    requires multiset(s) == multiset(t)
    ensures PowerWhere(s, p) == PowerWhere(t, p)
    decreases |s|
  {
    SameMembers(s, t);
    if s != [] {
      assert s[0] in t;
      var i :| 0 <= i < |t| && t[i] == s[0];
      Extract(t, i, p);
      TailMultiset(s);
      PowerPermuted(s[1..], t[..i] + t[i + 1..], p);
    }
  }

  lemma {:induction false} PowerSame(s: seq<Seat>, t: seq<Seat>)
    requires |s| == |t| && forall i :: 0 <= i < |s| ==> s[i].power == t[i].power
    ensures PowerOf(s) == PowerOf(t)
    decreases |s|
  {
    if s != [] {
      PowerSame(s[1..], t[1..]);
    }
  }

  lemma AheadOrder(x: Seat, y: Seat)
    ensures Ahead(x, y) || Ahead(y, x) || (x.power == y.power && x.operator == y.operator)
    ensures !(Ahead(x, y) && Ahead(y, x))
  {
    LexTrichotomy(x.operator, y.operator);
  }

  lemma NotBehindIsOrder()
    ensures TotalPreorder(NotBehind)
  {
    hide LexLess, LexLeq;
    forall x: Seat, y: Seat
      ensures NotBehind(x, y) || NotBehind(y, x)
    {
      AheadOrder(x, y);
    }
    forall x: Seat, y: Seat, z: Seat | NotBehind(x, y) && NotBehind(y, z)
      ensures NotBehind(x, z)
    {
      NotBehindTransitive(x, y, z);
    }
  }

  lemma NotBehindTransitive(x: Seat, y: Seat, z: Seat)
    requires NotBehind(x, y) && NotBehind(y, z)
    ensures NotBehind(x, z)
  {
    hide LexLess;
    assert x.power >= y.power >= z.power;
    if x.power == z.power {
      LexLeqTransitive(x.operator, y.operator, z.operator);
    }
  }

  // ----- the registry -----

  /** v gains a delegation; sums wrap as uint64 sums do. */
  function AfterDelegate(v: Entry, delegator: Address, amount: uint64): Entry {
    v.(power := Wrap64(v.power + amount),
       delegations := v.delegations[delegator := Wrap64(Delegated(v.delegations, delegator) + amount)])
  }

  function AfterUndelegate(v: Entry, delegator: Address, amount: uint64): Entry
    requires amount <= Delegated(v.delegations, delegator)
  {
    v.(power := Wrap64(v.power - amount),
       delegations := v.delegations[delegator := Delegated(v.delegations, delegator) - amount])
  }

  datatype Op =
    | Register(operator: Address, pubKey: Bytes, stake: uint64, commission: nat)
    | Delegate(delegator: Address, validator: Address, amount: uint64)
    | Undelegate(delegator: Address, validator: Address, amount: uint64)

  datatype Limits = Limits(minStake: uint64, maxValidators: uint32) {

    function Refusal(t: Table, op: Op): Option<DposError> {
      match op
      case Register(operator, _, stake, _) =>
        if stake < minStake then Some(BelowMinimum)
        else if operator in t then Some(AlreadyRegistered)
        else if |t| >= maxValidators then Some(Full)
        else None
      case Delegate(_, validator, amount) =>
        if validator !in t then Some(NotFound) else if amount == 0 then Some(ZeroAmount) else None
      case Undelegate(delegator, validator, amount) =>
        if validator !in t then Some(NotFound)
        else if Delegated(t[validator].delegations, delegator) < amount then Some(InsufficientDelegation)
        else None
    }

    function Perform(t: Table, op: Op): Table {
      if Refusal(t, op).Some? then t
      else
        match op
        case Register(operator, pubKey, stake, commission) =>
          t[operator := Entry(pubKey, stake, stake, map[], commission)]
        case Delegate(delegator, validator, amount) => t[validator := AfterDelegate(t[validator], delegator, amount)]
        case Undelegate(delegator, validator, amount) =>
          t[validator := AfterUndelegate(t[validator], delegator, amount)]
    }

    function PerformAll(t: Table, ops: seq<Op>): Table {
      if ops == [] then t else Perform(PerformAll(t, ops[..|ops| - 1]), ops[|ops| - 1])
    }
  }

  /** A registration: who is refused, and that the new entry holds the given key and stake and no delegations. */
  lemma RegisterMeans(limits: Limits, t: Table, operator: Address, pubKey: Bytes, stake: uint64, commission: nat)
    ensures var op := Op.Register(operator, pubKey, stake, commission);
      && (limits.Refusal(t, op).None? <==>
            stake >= limits.minStake && operator !in t && |t| < limits.maxValidators)
      && limits.Perform(t, op)
           == if stake >= limits.minStake && operator !in t && |t| < limits.maxValidators
              then t[operator := Entry.Entry(pubKey := pubKey, power := stake, stake := stake, delegations := map[],
                                             commission := commission)]
              else t
  {
  }

  /** A delegation: who is refused, and that one delegation and the power grow, as uint64 sums do. */
  lemma DelegateMeans(limits: Limits, t: Table, delegator: Address, validator: Address, amount: uint64)
    ensures var op := Op.Delegate(delegator, validator, amount);
      && (limits.Refusal(t, op).None? <==> validator in t && amount > 0)
      && limits.Perform(t, op)
           == if validator in t && amount > 0 then
                var v := t[validator];
                var had := if delegator in v.delegations then v.delegations[delegator] else 0;
                t[validator := v.(power := (v.power + amount) % TWO64,
                                  delegations := v.delegations[delegator := (had + amount) % TWO64])]
              else t
  {
  }

  /** An undelegation: who is refused, and that one delegation and the power shrink. */
  lemma UndelegateMeans(limits: Limits, t: Table, delegator: Address, validator: Address, amount: uint64)
    ensures var op := Op.Undelegate(delegator, validator, amount);
      && (limits.Refusal(t, op).None? <==>
            validator in t
            && amount <= if delegator in t[validator].delegations then t[validator].delegations[delegator] else 0)
      && limits.Perform(t, op)
           == if validator in t
                 && amount <= (if delegator in t[validator].delegations then t[validator].delegations[delegator] else 0)
              then
                var v := t[validator];
                var had := if delegator in v.delegations then v.delegations[delegator] else 0;
                t[validator := v.(power := (v.power - amount) % TWO64,
                                  delegations := v.delegations[delegator := had - amount])]
              else t
  {
  }

  class Validator {
    const operator: Address
    const pubKey: Bytes
    const commission: nat
    var power: uint64
    var stake: uint64
    var delegations: Delegations

    constructor (operator: Address, pubKey: Bytes, stake: uint64, commission: nat)
      ensures this.operator == operator && Record() == Entry(pubKey, stake, stake, map[], commission)
    {
      this.operator := operator;
      this.pubKey := pubKey;
      this.commission := commission;
      this.power := stake;
      this.stake := stake;
      this.delegations := map[];
    }

    function Record(): Entry
      reads this
    {
      Entry(pubKey, power, stake, delegations, commission)
    }

    method Gain(delegator: Address, amount: uint64)
      modifies this
      ensures Record() == AfterDelegate(old(Record()), delegator, amount)
    {
      delegations := delegations[delegator := Wrap64(Delegated(delegations, delegator) + amount)];
      power := Wrap64(power + amount);
    }

    method Lose(delegator: Address, amount: uint64)
      requires amount <= Delegated(delegations, delegator)
      modifies this
      ensures Record() == AfterUndelegate(old(Record()), delegator, amount)
    {
      delegations := delegations[delegator := Delegated(delegations, delegator) - amount];
      power := Wrap64(power - amount);
    }
  }

  lemma SizeWith<T>(m: map<Address, T>, a: Address, x: T)
    requires a !in m
    ensures m[a := x].Keys == m.Keys + {a} && |m[a := x]| == |m| + 1
  {
    assert m[a := x].Keys == m.Keys + {a};
    assert |m[a := x]| == |m[a := x].Keys| && |m| == |m.Keys|;
  }

  class DPoS {
    var validators: map<Address, Validator>
    const limits: Limits

    constructor (limits: Limits)
      ensures Valid() && TableOf() == map[] && this.limits == limits
    {
      this.limits := limits;
      this.validators := map[];
    }

    predicate Valid()
      reads this
    {
      |validators| <= limits.maxValidators && forall a :: a in validators ==> validators[a].operator == a
    }

    function TableOf(): Table
      reads this, validators.Values
    {
      map a | a in validators :: validators[a].Record()
    }

    lemma TableReads()
      ensures |TableOf()| == |validators| && TableOf().Keys == validators.Keys
      ensures forall a :: a in validators ==> TableOf()[a] == validators[a].Record()
    {
      assert TableOf().Keys == validators.Keys;
      assert |TableOf()| == |TableOf().Keys| && |validators| == |validators.Keys|;
    }

    lemma TableIs(t: Table)
      requires t.Keys == validators.Keys && forall a :: a in validators ==> validators[a].Record() == t[a]
      ensures TableOf() == t
    {
    }

    method Enter(v: Validator)
      requires Valid() && v.operator !in validators && |validators| < limits.maxValidators
      modifies this
      ensures Valid() && TableOf() == old(TableOf())[v.operator := v.Record()]
    {
      hide TableOf, Validator.Record;
      TableReads();
      ghost var want := TableOf()[v.operator := v.Record()];
      SizeWith(validators, v.operator, v);
      validators := validators[v.operator := v];
      TableIs(want);
    }

    method RegisterValidator(operator: Address, pubKey: Bytes, stake: uint64, commission: nat)
      returns (err: Option<DposError>)
      requires Valid()
      modifies this
      ensures Valid()
      ensures err == limits.Refusal(old(TableOf()), Op.Register(operator, pubKey, stake, commission))
      ensures TableOf() == limits.Perform(old(TableOf()), Op.Register(operator, pubKey, stake, commission))
      ensures err.None? <==>
                stake >= limits.minStake && operator !in old(TableOf()) && |old(TableOf())| < limits.maxValidators
      ensures err.None? ==>
        && TableOf().Keys == old(TableOf()).Keys + {operator}
        && (forall a :: a in old(TableOf()) ==> TableOf()[a] == old(TableOf())[a])
        && TableOf()[operator] == Entry(pubKey, stake, stake, map[], commission)
    {
      hide TableOf, Validator.Record;
      RegisterMeans(limits, TableOf(), operator, pubKey, stake, commission);
      TableReads();
      if stake < limits.minStake {
        return Some(BelowMinimum);
      }
      if operator in validators {
        return Some(AlreadyRegistered);
      }
      if |validators| % TWO32 >= limits.maxValidators {
        return Some(Full);
      }
      var v := new Validator(operator, pubKey, stake, commission);
      Enter(v);
      err := None;
    }

    method Delegate(delegator: Address, validator: Address, amount: uint64) returns (err: Option<DposError>)
      requires Valid()
      modifies if validator in validators then {validators[validator]} else {}
      ensures Valid()
      ensures err == limits.Refusal(old(TableOf()), Op.Delegate(delegator, validator, amount))
      ensures TableOf() == limits.Perform(old(TableOf()), Op.Delegate(delegator, validator, amount))
      ensures err.None? <==> validator in old(TableOf()) && amount > 0
    {
      hide TableOf, AfterDelegate, AfterUndelegate;
      TableReads();
      if validator !in validators {
        return Some(NotFound);
      }
      var v := validators[validator];
      if amount == 0 {
        return Some(ZeroAmount);
      }
      v.Gain(delegator, amount);
      TableIs(old(TableOf())[validator := v.Record()]);
      err := None;
    }

    method Undelegate(delegator: Address, validator: Address, amount: uint64) returns (err: Option<DposError>)
      requires Valid()
      modifies if validator in validators then {validators[validator]} else {}
      ensures Valid()
      ensures err == limits.Refusal(old(TableOf()), Op.Undelegate(delegator, validator, amount))
      ensures TableOf() == limits.Perform(old(TableOf()), Op.Undelegate(delegator, validator, amount))
    {
      hide TableOf, AfterDelegate, AfterUndelegate;
      TableReads();
      if validator !in validators {
        return Some(NotFound);
      }
      var v := validators[validator];
      var delegated := Delegated(v.delegations, delegator);
      if delegated < amount {
        return Some(InsufficientDelegation);
      }
      v.Lose(delegator, amount);
      TableIs(old(TableOf())[validator := v.Record()]);
      err := None;
    }

    /** First loop of ValidatorSet: a copy of every validator and the running total. */
    method CopyValidators() returns (seats: seq<Seat>, totalPower: uint64)
      requires Valid()
      ensures Copied(TableOf(), seats, {}) && totalPower == Wrap64(PowerOf(seats))
    {
      hide Copied, PowerOf, Wrap64, CopyOf;
      TableReads();
      NoneCopied(TableOf());
      seats, totalPower := [], 0;
      var todo := validators.Keys;
      while todo != {}
        invariant todo <= validators.Keys
        invariant Copied(TableOf(), seats, todo) && totalPower == Wrap64(PowerOf(seats))
      {
        var a :| a in todo;
        var v := validators[a];
        var copy := Seat(v.operator, v.pubKey, v.power, 0);
        CopyIs(TableOf(), copy);
        CopiedMore(TableOf(), seats, todo, a, copy);
        TotalSnoc(seats, copy);
        todo := todo - {a};
        seats := seats + [copy];
        totalPower := Wrap64(totalPower + v.power);
      }
    }

    /** Last loop of ValidatorSet: positions, both in the seats and by address. */
    method Number(sorted: seq<Seat>) returns (seats: seq<Seat>, index: map<Address, uint32>)
      requires |sorted| < TWO32 && forall i, j :: 0 <= i < j < |sorted| ==> sorted[i].operator != sorted[j].operator
      ensures |seats| == |sorted| && forall i :: 0 <= i < |sorted| ==> seats[i] == sorted[i].(index := i)
      ensures index == map a | a in index :: index[a]
      ensures forall i :: 0 <= i < |sorted| ==> sorted[i].operator in index && index[sorted[i].operator] == i
      ensures forall a :: a in index ==> index[a] < |sorted| && sorted[index[a]].operator == a
    {
      seats, index := sorted, map[];
      for i := 0 to |sorted|
        invariant |seats| == |sorted|
        invariant forall k :: 0 <= k < i ==> seats[k] == sorted[k].(index := k)
        invariant forall k :: i <= k < |sorted| ==> seats[k] == sorted[k]
        invariant forall k :: 0 <= k < i ==> sorted[k].operator in index && index[sorted[k].operator] == k
        invariant forall a :: a in index ==> index[a] < i && sorted[index[a]].operator == a
      {
        seats := seats[i := seats[i].(index := i)];
        index := index[seats[i].operator := i];
      }
    }

    method ValidatorSet() returns (s: ValidatorSet)
      requires Valid()
      ensures IsValidatorSet(TableOf(), s)
      ensures var vs := s.validators;
        forall i, j :: 0 <= i < j < |vs| ==>
          vs[i].power > vs[j].power || (vs[i].power == vs[j].power && LexLess(vs[i].operator, vs[j].operator))
    {
      hide Ahead, PowerOf, PowerWhere, Copied, IsValidatorSet, Wrap64, TableOf, SortingOf, Descending, LexLess;
      var seats, totalPower := CopyValidators();
      NotBehindIsOrder();
      SortSliceSorts(seats, NotBehind);
      var sorted := SortSlice(seats, NotBehind);
      SortedCopies(TableOf(), seats, sorted);
      CopiesFit(TableOf(), sorted);
      TableReads();
      SamePower(seats, sorted);
      var numbered, index := Number(sorted);
      PowerSame(sorted, numbered);
      s := Ranking(numbered, totalPower, index);
      Assembled(TableOf(), sorted, s);
      InOrder(TableOf(), s);
    }
  }

  /** In plain powers and addresses: more power first, then the smaller address. */
  lemma InOrder(t: Table, s: ValidatorSet)
    requires IsValidatorSet(t, s)
    ensures var vs := s.validators;
      forall i, j :: 0 <= i < j < |vs| ==>
        vs[i].power > vs[j].power || (vs[i].power == vs[j].power && LexLess(vs[i].operator, vs[j].operator))
  {
    hide LexLess, PowerOf;
    forall i, j | 0 <= i < j < |s.validators|
      ensures Ahead(s.validators[i], s.validators[j])
    {
    }
  }

  /** seats are unnumbered copies of the validators outside todo, each once. */
  ghost predicate Copied(t: Table, seats: seq<Seat>, todo: set<Address>) {
    && (forall i :: 0 <= i < |seats| ==> CopyOf(t, seats[i]) && seats[i].operator !in todo)
    && (forall i, j :: 0 <= i < j < |seats| ==> seats[i].operator != seats[j].operator)
    && (forall a :: a in t && a !in todo ==> exists i :: 0 <= i < |seats| && seats[i].operator == a)
  }

  predicate CopyOf(t: Table, x: Seat) {
    x.operator in t && x.pubKey == t[x.operator].pubKey && x.power == t[x.operator].power
  }

  lemma CopyIs(t: Table, x: Seat)
    requires x.operator in t && x.pubKey == t[x.operator].pubKey && x.power == t[x.operator].power
    ensures CopyOf(t, x)
  {
  }

  lemma NoneCopied(t: Table)
    ensures Copied(t, [], t.Keys) && Wrap64(PowerOf([])) == 0
  {
  }

  lemma TotalSnoc(seats: seq<Seat>, x: Seat)
    ensures Wrap64(PowerOf(seats + [x])) == Wrap64(Wrap64(PowerOf(seats)) + x.power)
  {
    PowerSnoc(seats, x, Anyone());
    WrapAdd(PowerOf(seats), x.power);
  }

  lemma CopiedMore(t: Table, seats: seq<Seat>, todo: set<Address>, a: Address, copy: Seat)
    requires Copied(t, seats, todo) && a in todo && CopyOf(t, copy) && copy.operator == a
    ensures Copied(t, seats + [copy], todo - {a})
  {
    var more := seats + [copy];
    assert more[|seats|].operator == a;
    forall b | b in t && b !in todo - {a}
      ensures exists i :: 0 <= i < |more| && more[i].operator == b
    {
      if b != a {
        var i :| 0 <= i < |seats| && seats[i].operator == b;
        assert more[i].operator == b;
      }
    }
  }

  lemma SortedCopies(t: Table, seats: seq<Seat>, sorted: seq<Seat>)
    requires Copied(t, seats, {}) && SortingOf(sorted, seats, NotBehind)
    ensures Copied(t, sorted, {})
    ensures Descending(sorted)
    ensures forall i, j :: 0 <= i < j < |sorted| ==> sorted[i].operator != sorted[j].operator
  {
    hide Ahead;
    SameMembers(sorted, seats);
    assert NoDuplicates(seats);
    PermutedNoDuplicates(seats, sorted);
    forall i | 0 <= i < |sorted|
      ensures CopyOf(t, sorted[i])
    {
      assert sorted[i] in seats;
    }
    forall i, j | 0 <= i < j < |sorted|
      ensures sorted[i].operator != sorted[j].operator && Ahead(sorted[i], sorted[j])
    {
      DistinctMembers(t, seats, sorted[i], sorted[j]);
      assert NotBehind(sorted[i], sorted[j]);
      AheadOrder(sorted[i], sorted[j]);
    }
    forall a | a in t
      ensures exists i :: 0 <= i < |sorted| && sorted[i].operator == a
    {
      var k :| 0 <= k < |seats| && seats[k].operator == a;
      assert seats[k] in sorted;
    }
  }

  lemma SamePower(seats: seq<Seat>, sorted: seq<Seat>)
    requires SortingOf(sorted, seats, NotBehind)
    ensures PowerOf(sorted) == PowerOf(seats)
  {
    PowerPermuted(seats, sorted, Anyone());
  }

  lemma DistinctMembers(t: Table, seats: seq<Seat>, x: Seat, y: Seat)
    requires Copied(t, seats, {}) && x in seats && y in seats && x != y
    ensures x.operator != y.operator
  {
    var i :| 0 <= i < |seats| && seats[i] == x;
    var j :| 0 <= j < |seats| && seats[j] == y;
  }

  lemma CopiesFit(t: Table, sorted: seq<Seat>)
    requires Copied(t, sorted, {})
    ensures |sorted| == |t|
  {
    var ops := seq(|sorted|, i requires 0 <= i < |sorted| => sorted[i].operator);
    forall a
      ensures a in ops <==> a in t.Keys
    {
      if a in t {
        var i :| 0 <= i < |sorted| && sorted[i].operator == a;
        assert ops[i] == a;
      }
    }
    OperatorCount(ops, t.Keys);
    assert |t.Keys| == |t|;
  }

  lemma {:induction false} OperatorCount(ops: seq<Address>, s: set<Address>)
    requires NoDuplicates(ops) && forall a :: a in ops <==> a in s
    ensures |ops| == |s|
    decreases |ops|
  {
    if ops == [] {
      assert s == {};
    } else {
      forall a
        ensures a in ops[1..] <==> a in s - {ops[0]}
      {
        assert a in ops <==> a == ops[0] || a in ops[1..];
        if a in ops[1..] {
          var i :| 1 <= i < |ops| && ops[i] == a;
        }
      }
      assert ops[0] in s;
      OperatorCount(ops[1..], s - {ops[0]});
    }
  }

  /** sorted, numbered and indexed. */
  ghost predicate Numbered(sorted: seq<Seat>, s: ValidatorSet) {
    && |s.validators| == |sorted| < TWO32
    && (forall i :: 0 <= i < |sorted| ==> s.validators[i] == sorted[i].(index := i))
    && (forall i :: 0 <= i < |sorted| ==> sorted[i].operator in s.indexByAddr && s.indexByAddr[sorted[i].operator] == i)
    && (forall a :: a in s.indexByAddr ==> s.indexByAddr[a] < |sorted| && sorted[s.indexByAddr[a]].operator == a)
  }

  lemma NumberedCopies(t: Table, sorted: seq<Seat>, s: ValidatorSet)
    requires Copied(t, sorted, {}) && Numbered(sorted, s)
    ensures forall i :: 0 <= i < |sorted| ==> CopyOf(t, s.validators[i]) && s.validators[i].index == i
    ensures s.indexByAddr.Keys == t.Keys
    ensures forall a :: a in t ==> s.indexByAddr[a] < |sorted| && s.validators[s.indexByAddr[a]].operator == a
  {
    forall a
      ensures a in s.indexByAddr <==> a in t
    {
      if a in t {
        var i :| 0 <= i < |sorted| && sorted[i].operator == a;
      }
    }
  }

  lemma AheadNumbered(x: Seat, y: Seat, i: uint32, j: uint32)
    ensures Ahead(x.(index := i), y.(index := j)) == Ahead(x, y)
  {
  }

  lemma Assembled(t: Table, sorted: seq<Seat>, s: ValidatorSet)
    requires Copied(t, sorted, {}) && Numbered(sorted, s)
    requires Descending(sorted)
    requires s.totalPower == Wrap64(PowerOf(s.validators))
    ensures IsValidatorSet(t, s)
  {
    hide PowerOf, Wrap64, Ahead, Copied;
    NumberedCopies(t, sorted, s);
    forall i, j | 0 <= i < j < |sorted|
      ensures Ahead(s.validators[i], s.validators[j])
    {
      AheadNumbered(sorted[i], sorted[j], i, j);
    }
  }

  // ----- the set is a function of the registry -----

  /** Two lists in strict order with the same members are the same list. */
  lemma {:induction false} SameOrder(r: seq<Seat>, t: seq<Seat>)
    requires Descending(r)
    requires Descending(t)
    requires forall x :: x in r <==> x in t
    ensures r == t
    decreases |r|
  {
    hide Ahead;
    assert (r != [] ==> r[0] in t) && (t != [] ==> t[0] in r);
    if r != [] {
      SameFirst(r, t);
      forall x
        ensures x in r[1..] <==> x in t[1..]
      {
        TailMember(r, x);
        TailMember(t, x);
      }
      SameOrder(r[1..], t[1..]);
      assert r == [r[0]] + r[1..] && t == [t[0]] + t[1..];
    }
  }

  lemma SameFirst(r: seq<Seat>, t: seq<Seat>)
    requires |r| > 0 && |t| > 0 && r[0] in t && t[0] in r
    requires Descending(r)
    requires Descending(t)
    ensures r[0] == t[0]
  {
    hide Ahead;
    AheadOrder(r[0], t[0]);
    var i :| 0 <= i < |t| && t[i] == r[0];
    var j :| 0 <= j < |r| && r[j] == t[0];
  }

  lemma TailMember(r: seq<Seat>, x: Seat)
    requires |r| > 0 && Descending(r)
    ensures x in r[1..] <==> x in r && x != r[0]
  {
    hide Ahead;
    AheadOrder(r[0], x);
    if x in r[1..] {
      var i :| 1 <= i < |r| && r[i] == x;
      assert Ahead(r[0], r[i]);
    }
  }

  function Plain(vs: seq<Seat>): (us: seq<Seat>)
    ensures |us| == |vs| && forall i :: 0 <= i < |vs| ==> us[i] == vs[i].(index := 0)
  {
    seq(|vs|, i requires 0 <= i < |vs| => vs[i].(index := 0))
  }

  lemma PlainMembers(t: Table, s: ValidatorSet, x: Seat)
    requires IsValidatorSet(t, s)
    ensures x in Plain(s.validators) <==> CopyOf(t, x) && x.index == 0
  {
    hide PowerOf, Wrap64, Ahead;
    var us := Plain(s.validators);
    if CopyOf(t, x) && x.index == 0 {
      var i := s.indexByAddr[x.operator];
      assert us[i] == x;
    }
  }

  lemma PlainOrder(t: Table, s: ValidatorSet)
    requires IsValidatorSet(t, s)
    ensures Descending(Plain(s.validators))
  {
    hide PowerOf, Wrap64, Ahead;
    forall i, j | 0 <= i < j < |s.validators|
      ensures Ahead(Plain(s.validators)[i], Plain(s.validators)[j])
    {
      AheadNumbered(s.validators[i], s.validators[j], 0, 0);
    }
  }

  lemma SeatsDistinct(t: Table, s: ValidatorSet, i: nat, j: nat)
    requires IsValidatorSet(t, s) && i < |s.validators| && j < |s.validators|
    requires s.validators[i].operator == s.validators[j].operator
    ensures i == j
  {
    var vs := s.validators;
    if i < j {
      assert Ahead(vs[i], vs[j]);
      LexTrichotomy(vs[i].operator, vs[j].operator);
    } else if j < i {
      assert Ahead(vs[j], vs[i]);
      LexTrichotomy(vs[i].operator, vs[j].operator);
    }
  }

  lemma SeatAt(t: Table, s: ValidatorSet, i: nat)
    requires IsValidatorSet(t, s) && i < |s.validators|
    ensures s.validators[i] == Plain(s.validators)[i].(index := i)
  {
  }

  lemma SamePlain(t: Table, r: ValidatorSet, s: ValidatorSet)
    requires IsValidatorSet(t, r) && IsValidatorSet(t, s)
    ensures Plain(r.validators) == Plain(s.validators)
  {
    hide IsValidatorSet, Ahead, CopyOf, Plain;
    PlainOrder(t, r);
    PlainOrder(t, s);
    forall x
      ensures x in Plain(r.validators) <==> x in Plain(s.validators)
    {
      PlainMembers(t, r, x);
      PlainMembers(t, s, x);
    }
    SameOrder(Plain(r.validators), Plain(s.validators));
  }

  /** A registry has one validator set: the order in which validators are visited does not matter. */
  lemma SetUnique(t: Table, r: ValidatorSet, s: ValidatorSet)
    requires IsValidatorSet(t, r) && IsValidatorSet(t, s)
    ensures r == s
  {
    hide PowerOf, Wrap64, Ahead;
    SamePlain(t, r, s);
    assert |r.validators| == |Plain(r.validators)| == |s.validators|;
    forall i | 0 <= i < |r.validators|
      ensures r.validators[i] == s.validators[i]
    {
      SeatAt(t, r, i);
      SeatAt(t, s, i);
    }
    assert r.validators == s.validators;
    forall a | a in t
      ensures r.indexByAddr[a] == s.indexByAddr[a]
    {
      SeatsDistinct(t, r, r.indexByAddr[a], s.indexByAddr[a]);
    }
    assert r.indexByAddr == s.indexByAddr && r.totalPower == s.totalPower;
  }

  /** What consensus uses of a validator set: positions and addresses are inverse to each other. */
  ghost predicate Consistent(s: ValidatorSet) {
    var vs := s.validators;
    && (forall i :: 0 <= i < |vs| ==> vs[i].index == i)
    && (forall i :: 0 <= i < |vs| ==> vs[i].operator in s.indexByAddr && s.indexByAddr[vs[i].operator] == i)
    && (forall a :: a in s.indexByAddr ==> s.indexByAddr[a] < |vs| && vs[s.indexByAddr[a]].operator == a)
    && s.totalPower == Wrap64(PowerOf(vs))
  }

  lemma SetConsistent(t: Table, s: ValidatorSet)
    requires IsValidatorSet(t, s)
    ensures Consistent(s)
  {
    hide Ahead, PowerOf, Wrap64;
    forall i | 0 <= i < |s.validators|
      ensures s.indexByAddr[s.validators[i].operator] == i
    {
      SeatsDistinct(t, s, s.indexByAddr[s.validators[i].operator], i);
    }
  }

  // ----- power is stake plus delegations -----

  ghost function Sum(d: Delegations): nat
    decreases |d|
  {
    if d == map[] then 0
    else
      var a :| a in d;
      d[a] + Sum(d - {a})
  }

  lemma {:induction false} SumRemove(d: Delegations, a: Address)
    requires a in d
    ensures Sum(d) == d[a] + Sum(d - {a})
    decreases |d|
  {
    var b :| b in d && Sum(d) == d[b] + Sum(d - {b});
    if a != b {
      SumRemove(d - {b}, a);
      SumRemove(d - {a}, b);
      assert d - {a} - {b} == d - {b} - {a};
    }
  }

  lemma SumPut(d: Delegations, a: Address, x: uint64)
    ensures Sum(d[a := x]) == Sum(d) - Delegated(d, a) + x
  {
    SumRemove(d[a := x], a);
    assert d[a := x] - {a} == d - {a};
    if a in d {
      SumRemove(d, a);
    } else {
      assert d - {a} == d;
    }
  }

  ghost predicate Backed(v: Entry) { v.power == Wrap64(v.stake + Sum(v.delegations)) }

  lemma DelegateKeepsBacked(v: Entry, delegator: Address, amount: uint64)
    requires Backed(v)
    ensures Backed(AfterDelegate(v, delegator, amount))
    ensures amount <= Delegated(v.delegations, delegator) ==> Backed(AfterUndelegate(v, delegator, amount))
  {
    hide Sum, Wrap64;
    var had, base := Delegated(v.delegations, delegator), v.stake + Sum(v.delegations);
    SumPut(v.delegations, delegator, Wrap64(had + amount));
    WrapAdd(base, amount);
    WrapAdd(had + amount, base - had);
    if amount <= had {
      var left: uint64 := had - amount;
      SumPut(v.delegations, delegator, left);
      WrapAdd(base, 0 - amount);
    }
  }

  /** Over every run, each validator's power is its stake plus its delegations, as a uint64 sum. */
  lemma {:induction false} RunBacked(limits: Limits, ops: seq<Op>, a: Address)
    ensures var t := limits.PerformAll(map[], ops);
      a in t ==>
        Backed(t[a])
        && (t[a].stake + Sum(t[a].delegations) <= MAX64 ==> t[a].power == t[a].stake + Sum(t[a].delegations))
    decreases |ops|
  {
    if ops != [] {
      var t, op := limits.PerformAll(map[], ops[..|ops| - 1]), ops[|ops| - 1];
      RunBacked(limits, ops[..|ops| - 1], a);
      hide Sum, Wrap64, AfterDelegate, AfterUndelegate, Limits.PerformAll;
      SmallWrap();
      if a in t && !op.Register? && op.validator == a {
        DelegateKeepsBacked(t[a], op.delegator, op.amount);
      }
      EmptySum();
    }
  }

  lemma EmptySum()
    ensures Sum(map[]) == 0
  {
  }

  /** Undelegating what was just delegated is accepted, and undoes it, exactly when the delegator's sum did not wrap. */
  lemma DelegationUndone(v: Entry, delegator: Address, amount: uint64)
    ensures var after := AfterDelegate(v, delegator, amount);
      && (amount <= Delegated(after.delegations, delegator) <==> Delegated(v.delegations, delegator) + amount <= MAX64)
      && (amount <= Delegated(after.delegations, delegator) ==>
            var back := AfterUndelegate(after, delegator, amount);
            && back.(delegations := map[]) == v.(delegations := map[])
            && forall d :: Delegated(back.delegations, d) == Delegated(v.delegations, d))
  {
    WrapAdd(v.power + amount, 0 - amount);
    SmallWrap();
  }
}
