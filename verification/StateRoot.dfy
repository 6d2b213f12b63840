/** The state root: which accounts it covers, how it is computed, and what it determines (pkg/state/merkle.go). */
module StateRoot {
  import opened Wrappers
  import opened Machine
  import opened Types
  import opened Bytewise
  import opened Sorting
  import opened Merkle
  import opened AccountCodec
  import opened AccountStore
  import Contracts
  import Ledger
  import Wire

  // ----- the iterator's range -----

  /** The keys iterateAccounts visits. */
  predicate Visited(k: Bytes) { LexLeq(ACCOUNT_PREFIX, k) && LexLess(k, ACCOUNT_PREFIX + [0xFF]) }

  /** The addresses whose keys lie in that range. */
  predicate Covered(a: Address) { a == [] || a[0] < 255 }

  lemma {:induction false} PrefixRange(p: Bytes, k: Bytes)
    ensures LexLeq(p, k) && LexLess(k, p + [0xFF]) <==> p <= k && (|k| == |p| || k[|p|] < 255)
    decreases |p|
  {
    if p != [] && k != [] && p[0] == k[0] {
      assert (p + [0xFF])[1..] == p[1..] + [0xFF];
      PrefixRange(p[1..], k[1..]);
      assert p <= k <==> p[1..] <= k[1..];
    }
  }

  /** The iterator visits every account key except those of addresses that start with byte 0xFF. */
  lemma VisitedExactly(k: Bytes)
    ensures Visited(k) <==> IsAccountKey(k) && Covered(AddressOf(k))
  {
    PrefixRange(ACCOUNT_PREFIX, k);
  }

  // ----- the specification -----

  ghost predicate StrictlySorted(s: seq<Bytes>) { forall i, j :: 0 <= i < j < |s| ==> LexLess(s[i], s[j]) }

  ghost predicate IsLeast(m: Bytes, s: set<Bytes>) { m in s && forall x :: x in s ==> LexLeq(m, x) }

  lemma {:induction false} FindLeast(s: set<Bytes>) returns (m: Bytes)
    requires s != {}
    ensures IsLeast(m, s)
    decreases |s|
  {
    hide LexLess, LexLeq;
    m :| m in s;
    LexOrder(m, m);
    if s != {m} {
      var a := m;
      var rest := FindLeast(s - {a});
      LexOrder(a, rest);
      m := if LexLeq(a, rest) then a else rest;
      forall x | x in s
        ensures LexLeq(m, x)
      {
        if x != a && m == a {
          LexLeqTransitive(a, rest, x);
        }
      }
    }
  }

  lemma LeastExists(s: set<Bytes>)
    requires s != {}
    ensures exists m :: IsLeast(m, s)
  {
    var m := FindLeast(s);
  }

  ghost function Least(s: set<Bytes>): (m: Bytes)
    requires s != {}
    ensures IsLeast(m, s)
  {
    LeastExists(s);
    var m :| IsLeast(m, s);
    m
  }

  ghost function SortedList(s: set<Bytes>): seq<Bytes>
    decreases |s|
  {
    if s == {} then [] else [Least(s)] + SortedList(s - {Least(s)})
  }

  lemma {:induction false} SortedListMembers(s: set<Bytes>)
    ensures StrictlySorted(SortedList(s)) && forall x :: x in SortedList(s) <==> x in s
    decreases |s|
  {
    hide LexLess, LexLeq;
    if s != {} {
      hide StrictlySorted;
      var m := Least(s);
      var rest := SortedList(s - {m});
      SortedListMembers(s - {m});
      forall x | x in rest
        ensures LexLess(m, x)
      {
        LexOrder(m, x);
      }
      LessThanAll(m, rest);
      assert SortedList(s) == [m] + rest;
    }
  }

  lemma LessThanAll(m: Bytes, rest: seq<Bytes>)
    requires StrictlySorted(rest) && forall x :: x in rest ==> LexLess(m, x)
    ensures StrictlySorted([m] + rest)
  {
    hide LexLess;
  }

  lemma HeadOfSorted(t: seq<Bytes>, s: set<Bytes>)
    requires s != {} && StrictlySorted(t) && forall x :: x in t <==> x in s
    ensures |t| > 0 && t[0] == Least(s) && StrictlySorted(t[1..])
    ensures forall x :: x in t[1..] <==> x in s - {Least(s)}
  {
    hide LexLess, LexLeq;
    var m := Least(s);
    assert m in t;
    var i :| 0 <= i < |t| && t[i] == m;
    assert t[0] in s;
    LexOrder(t[0], m);
    LexOrder(m, t[0]);
    assert i == 0 || LexLess(t[0], t[i]);
    forall x
      ensures x in t[1..] <==> x in s - {m}
    {
      assert x in t <==> x == t[0] || x in t[1..];
      if x in t[1..] {
        var j :| 1 <= j < |t| && t[j] == x;
        LexTrichotomy(t[0], t[j]);
      }
    }
  }

  /** There is one strictly sorted list of a set. */
  lemma {:induction false} SortedListUnique(t: seq<Bytes>, s: set<Bytes>)
    requires StrictlySorted(t) && forall x :: x in t <==> x in s
    ensures t == SortedList(s)
    decreases |s|
  {
    hide LexLess, LexLeq, StrictlySorted;
    if s != {} {
      HeadOfSorted(t, s);
      SortedListUnique(t[1..], s - {Least(s)});
      assert t == [t[0]] + t[1..];
    }
  }

  function LeafData(key: Bytes, val: Bytes): Bytes { [0] + key + val }

  ghost function CoveredAddresses(l: Ledger.Accounts): set<Address> { set a | a in l && Covered(a) }

  ghost function LeavesOf(l: Ledger.Accounts, addrs: seq<Address>): (data: seq<Bytes>)
    ensures |data| == |addrs|
    ensures forall i :: 0 <= i < |addrs| ==>
        data[i] == LeafData(AccountKey(addrs[i]), AccountBytes(Ledger.Get(l, addrs[i])))
  {
    seq(|addrs|, i requires 0 <= i < |addrs| => LeafData(AccountKey(addrs[i]), AccountBytes(Ledger.Get(l, addrs[i]))))
  }

  /** The covered accounts' leaves in address order. */
  ghost function LeafList(l: Ledger.Accounts): seq<Bytes> { LeavesOf(l, SortedList(CoveredAddresses(l))) }

  /** The root of the covered accounts in key order; the zero hash if there are none. */
  ghost function StateRoot(h: Hasher, l: Ledger.Accounts): Hash {
    if |LeafList(l)| == 0 then ZERO_HASH else Root(h, LeafHashes(h, LeafList(l)))
  }

  /** What the root is, for the covered accounts' addresses in ascending order. */
  lemma RootMeans(h: Hasher, l: Ledger.Accounts, addrs: seq<Address>)
    requires forall i, j :: 0 <= i < j < |addrs| ==> LexLess(addrs[i], addrs[j])
    requires forall a :: a in addrs <==> a in l && (a == [] || a[0] < 255)
    ensures StateRoot(h, l)
         == if addrs == [] then seq(32, _ => 0)
            else Root(h, LeafHashes(h, seq(|addrs|, i requires 0 <= i < |addrs| =>
                                             [0] + Ascii("acct/") + addrs[i] + AccountBytes(l[addrs[i]]))))
  {
    hide LexLess, AccountBytes, Root, Ascii, SortedList, LeafData;
    assert CoveredAddresses(l) == set a | a in addrs;
    SortedListUnique(addrs, CoveredAddresses(l));
    var data := seq(|addrs|, i requires 0 <= i < |addrs| =>
                      [0] + Ascii("acct/") + addrs[i] + AccountBytes(l[addrs[i]]));
    forall i | 0 <= i < |addrs|
      ensures LeafList(l)[i] == data[i]
    {
      LeafSpelled(addrs[i], AccountBytes(l[addrs[i]]));
    }
    assert LeafList(l) == data;
  }

  lemma LeafSpelled(a: Address, val: Bytes)
    ensures LeafData(AccountKey(a), val) == [0] + Ascii("acct/") + a + val
  {
    hide Ascii;
    KeysSpelled();
  }

  // ----- the computation -----

  datatype KeyValue = KeyValue(key: Bytes, val: Bytes)

  predicate KeyLeq(x: KeyValue, y: KeyValue) { LexLeq(x.key, y.key) }

  lemma KeyLeqIsOrder()
    ensures TotalPreorder(KeyLeq)
  {
    forall x: KeyValue, y: KeyValue
      ensures KeyLeq(x, y) || KeyLeq(y, x)
    {
      LexOrder(x.key, y.key);
    }
    forall x: KeyValue, y: KeyValue, z: KeyValue | KeyLeq(x, y) && KeyLeq(y, z)
      ensures KeyLeq(x, z)
    {
      LexLeqTransitive(x.key, y.key, z.key);
    }
  }

  /** items are the records of the visited keys outside todo, each once, in some order. */
  ghost predicate Collected(view: KV, items: seq<KeyValue>, todo: set<Bytes>) {
    && (forall i :: 0 <= i < |items| ==>
          items[i].key in view && Visited(items[i].key) && items[i].key !in todo && items[i].val == view[items[i].key])
    && (forall i, j :: 0 <= i < j < |items| ==> items[i].key != items[j].key)
    && (forall k :: k in view && Visited(k) && k !in todo ==> exists i :: 0 <= i < |items| && items[i].key == k)
  }

  lemma CollectedMore(view: KV, items: seq<KeyValue>, todo: set<Bytes>, k: Bytes)
    requires Collected(view, items, todo) && k in todo && k in view && Visited(k)
    ensures Collected(view, items + [KeyValue(k, view[k])], todo - {k})
  {
    hide Visited;
    var more := items + [KeyValue(k, view[k])];
    assert more[|items|].key == k;
    forall x | x in view && Visited(x) && x !in todo - {k}
      ensures exists i :: 0 <= i < |more| && more[i].key == x
    {
      if x != k {
        var i :| 0 <= i < |items| && items[i].key == x;
        assert more[i].key == x;
      }
    }
  }

  /** iterateAccounts with the callback of ComputeStateRootFromReader. */
  method CollectItems(view: KV) returns (items: seq<KeyValue>)
    requires WellFormed(view)
    ensures Collected(view, items, {})
  {
    items := [];
    var todo := set k | k in view && Visited(k);
    while todo != {}
      invariant forall k :: k in todo ==> k in view && Visited(k)
      invariant Collected(view, items, todo)
    {
      var key :| key in todo;
      VisitedExactly(key);
      CollectedMore(view, items, todo, key);
      var acct := UnmarshalAccount(view[key]);
      var val := MarshalAccount(acct.value);
      items := items + [KeyValue(key, val)];
      todo := todo - {key};
    }
  }

  function Keys(items: seq<KeyValue>): (ks: seq<Bytes>)
    ensures |ks| == |items| && forall i :: 0 <= i < |items| ==> ks[i] == items[i].key
  {
    seq(|items|, i requires 0 <= i < |items| => items[i].key)
  }

  method HashLeaves(h: Hasher, sorted: seq<KeyValue>) returns (leaves: seq<Hash>)
    ensures |leaves| == |sorted|
    ensures forall i :: 0 <= i < |sorted| ==> leaves[i] == h(LeafData(sorted[i].key, sorted[i].val))
  {
    leaves := [];
    for i := 0 to |sorted|
      invariant |leaves| == i
      invariant forall k :: 0 <= k < i ==> leaves[k] == h(LeafData(sorted[k].key, sorted[k].val))
    {
      leaves := leaves + [h(LeafData(sorted[i].key, sorted[i].val))];
    }
  }

  method ComputeStateRoot(h: Hasher, view: KV) returns (root: Hash)
    requires WellFormed(view)
    ensures root == StateRoot(h, LedgerOf(view))
  {
    hide LeafList, WellFormed, LedgerOf, LeafData, Collected, Root;
    var items := CollectItems(view);
    KeyLeqIsOrder();
    SortSliceSorts(items, KeyLeq);
    var sorted := SortSlice(items, KeyLeq);
    SortedItems(view, items, sorted);
    var leaves := HashLeaves(h, sorted);
    assert leaves == LeafHashes(h, LeafList(LedgerOf(view)));
    if |leaves| == 0 {
      return ZERO_HASH;
    }
    var r := MerkleRoot(h, leaves);
    root := r.value;
  }

  /** Sorted entries with distinct keys have strictly sorted keys. */
  lemma SortedStrictly(view: KV, items: seq<KeyValue>, sorted: seq<KeyValue>)
    requires Collected(view, items, {}) && SortingOf(sorted, items, KeyLeq)
    ensures StrictlySorted(Keys(sorted)) && forall e :: e in sorted <==> e in items
  {
    hide LexLess, LexLeq, Visited;
    SameMembers(sorted, items);
    assert NoDuplicates(items);
    PermutedNoDuplicates(items, sorted);
    forall i, j | 0 <= i < j < |sorted|
      ensures LexLess(Keys(sorted)[i], Keys(sorted)[j])
    {
      assert KeyLeq(sorted[i], sorted[j]);
      LexOrder(sorted[i].key, sorted[j].key);
      assert sorted[i] in items && sorted[j] in items;
      assert sorted[i].key != sorted[j].key;
    }
  }

  /** A visited record is a covered account's. */
  lemma RecordIsAccount(view: KV, k: Bytes)
    requires WellFormed(view) && k in view && Visited(k)
    ensures IsAccountKey(k) && Covered(AddressOf(k)) && AccountKey(AddressOf(k)) == k
    ensures AddressOf(k) in LedgerOf(view) && AccountBytes(LedgerOf(view)[AddressOf(k)]) == view[k]
  {
    VisitedExactly(k);
    KeyOfAddress(k);
    LedgerKeys(view, AddressOf(k));
  }

  lemma AccountIsRecord(view: KV, a: Address)
    requires WellFormed(view) && a in LedgerOf(view) && Covered(a)
    ensures AccountKey(a) in view && Visited(AccountKey(a)) && IsAccountKey(AccountKey(a))
        && AddressOf(AccountKey(a)) == a
  {
    LedgerKeys(view, a);
    KeyRoundTrip(a);
    VisitedExactly(AccountKey(a));
  }

  function AddressesOf(items: seq<KeyValue>): (addrs: seq<Address>)
    requires forall i :: 0 <= i < |items| ==> IsAccountKey(items[i].key)
    ensures |addrs| == |items| && forall i :: 0 <= i < |items| ==> addrs[i] == AddressOf(items[i].key)
  {
    seq(|items|, i requires 0 <= i < |items| => AddressOf(items[i].key))
  }

  lemma AddressesSorted(sorted: seq<KeyValue>)
    requires StrictlySorted(Keys(sorted)) && forall i :: 0 <= i < |sorted| ==> IsAccountKey(sorted[i].key)
    ensures StrictlySorted(AddressesOf(sorted))
  {
    hide LexLess;
    var addrs := AddressesOf(sorted);
    forall i, j | 0 <= i < j < |addrs|
      ensures LexLess(addrs[i], addrs[j])
    {
      KeyOfAddress(sorted[i].key);
      KeyOfAddress(sorted[j].key);
      assert LexLess(Keys(sorted)[i], Keys(sorted)[j]);
      LexPrefix(ACCOUNT_PREFIX, addrs[i], addrs[j]);
    }
  }

  /** The addresses of the sorted entries are the sorted covered addresses of the ledger. */
  lemma AddressesCovered(view: KV, items: seq<KeyValue>, sorted: seq<KeyValue>)
    requires WellFormed(view) && Collected(view, items, {}) && SortingOf(sorted, items, KeyLeq)
    ensures forall i :: 0 <= i < |sorted| ==>
              sorted[i].key in view && Visited(sorted[i].key) && IsAccountKey(sorted[i].key)
              && sorted[i].val == view[sorted[i].key]
    ensures AddressesOf(sorted) == SortedList(CoveredAddresses(LedgerOf(view)))
  {
    hide LexLess, LexLeq, DecodeAccount, AccountBytes, WellFormed, LedgerOf, IsAccountKey, AddressOf, AccountKey;
    hide Covered, Visited;
    hide StrictlySorted;
    SortedStrictly(view, items, sorted);
    forall i | 0 <= i < |sorted|
      ensures sorted[i].key in view && Visited(sorted[i].key) && IsAccountKey(sorted[i].key)
          && sorted[i].val == view[sorted[i].key]
    {
      assert sorted[i] in items;
      RecordIsAccount(view, sorted[i].key);
    }
    AddressesSorted(sorted);
    var addrs, covered := AddressesOf(sorted), CoveredAddresses(LedgerOf(view));
    forall a
      ensures a in addrs <==> a in covered
    {
      if a in addrs {
        var i :| 0 <= i < |addrs| && addrs[i] == a;
        RecordIsAccount(view, sorted[i].key);
      }
      if a in covered {
        AccountIsRecord(view, a);
        var i :| 0 <= i < |items| && items[i].key == AccountKey(a);
        assert items[i] in sorted;
        var j :| 0 <= j < |sorted| && sorted[j] == items[i];
        assert addrs[j] == a;
      }
    }
    SortedListUnique(addrs, covered);
  }

  /** The sorted entries are the leaves of the ledger's root, in order. */
  lemma SortedItems(view: KV, items: seq<KeyValue>, sorted: seq<KeyValue>)
    requires WellFormed(view) && Collected(view, items, {}) && SortingOf(sorted, items, KeyLeq)
    ensures |LeafList(LedgerOf(view))| == |sorted|
    ensures forall i :: 0 <= i < |sorted| ==> LeafList(LedgerOf(view))[i] == LeafData(sorted[i].key, sorted[i].val)
  {
    hide LexLess, LexLeq, DecodeAccount, AccountBytes, WellFormed, LedgerOf, IsAccountKey, AddressOf, AccountKey;
    hide Covered, Visited;
    hide StrictlySorted, SortedList, CoveredAddresses, Collected;
    AddressesCovered(view, items, sorted);
    forall i | 0 <= i < |sorted|
      ensures LeafList(LedgerOf(view))[i] == LeafData(sorted[i].key, sorted[i].val)
    {
      RecordIsAccount(view, sorted[i].key);
    }
  }

  // ----- what the root determines -----

  /** The accounts the root covers. */
  ghost function Visible(l: Ledger.Accounts): Ledger.Accounts { map a | a in l && Covered(a) :: l[a] }

  /** Bech32 text, among others, has no byte 0x0A, the tag an encoded account begins with. */
  ghost predicate PlainAddresses(l: Ledger.Accounts) { forall a :: a in l ==> 0x0A !in a }

  ghost predicate RecordsFit(l: Ledger.Accounts) { forall a :: a in l ==> AccountFits(l[a]) }

  lemma AccountBytesStart(x: Account)
    ensures |AccountBytes(x)| > 0 && AccountBytes(x)[0] == 0x0A
  {
    var fs := AccountFields(x);
    assert fs[0] == Wire.Field(1, Wire.Chunk(x.address));
    Wire.EncodeStart(fs);
  }

  function UntilTag(s: Bytes): Bytes { if s == [] || s[0] == 0x0A then [] else [s[0]] + UntilTag(s[1..]) }

  lemma {:induction false} UntilTagOf(a: Bytes, x: Bytes)
    requires |x| > 0 && x[0] == 0x0A && 0x0A !in a
    ensures UntilTag(a + x) == a && (a + x)[|a|..] == x
    decreases |a|
  {
    if a != [] {
      assert (a + x)[1..] == a[1..] + x;
      UntilTagOf(a[1..], x);
    }
  }

  /** A leaf tells which account it is of, and everything about it. */
  lemma LeafInjective(a: Address, x: Account, b: Address, y: Account)
    requires 0x0A !in a && 0x0A !in b && AccountFits(x)
    requires LeafData(AccountKey(a), AccountBytes(x)) == LeafData(AccountKey(b), AccountBytes(y))
    ensures a == b && x == y
  {
    hide AccountBytes;
    AccountBytesStart(x);
    AccountBytesStart(y);
    var s, t := LeafData(AccountKey(a), AccountBytes(x)), LeafData(AccountKey(b), AccountBytes(y));
    assert s[6..] == a + AccountBytes(x) && t[6..] == b + AccountBytes(y);
    UntilTagOf(a, AccountBytes(x));
    UntilTagOf(b, AccountBytes(y));
    RecordFits(x);
    AccountInjective(x, y);
  }

  /** Everything hashed for a state's root. */
  ghost function HashedFor(h: Hasher, l: Ledger.Accounts): set<Bytes> {
    if |LeafList(l)| == 0 then {} else Preimages(h, LeafList(l))
  }

  lemma MemberAt(l: Ledger.Accounts, i: nat)
    requires i < |LeafList(l)|
    ensures i < |SortedList(CoveredAddresses(l))|
    ensures SortedList(CoveredAddresses(l))[i] in l && Covered(SortedList(CoveredAddresses(l))[i])
  {
    hide SortedList, Covered;
    SortedListMembers(CoveredAddresses(l));
    assert SortedList(CoveredAddresses(l))[i] in SortedList(CoveredAddresses(l));
  }

  /** Equal leaves are leaves of the same account. */
  lemma SameLeaf(l: Ledger.Accounts, i: nat, m: Ledger.Accounts, j: nat)
    requires PlainAddresses(l) && PlainAddresses(m) && RecordsFit(l)
    requires i < |LeafList(l)| && j < |LeafList(m)| && LeafList(l)[i] == LeafList(m)[j]
    ensures var a, b := SortedList(CoveredAddresses(l))[i], SortedList(CoveredAddresses(m))[j];
      a in l && b in m && Covered(a) && a == b && l[a] == m[b]
  {
    hide SortedList, Covered, CoveredAddresses, LeafData, AccountKey, AccountBytes, AccountFits;
    MemberAt(l, i);
    MemberAt(m, j);
    var a, b := SortedList(CoveredAddresses(l))[i], SortedList(CoveredAddresses(m))[j];
    LeafInjective(a, Ledger.Get(l, a), b, Ledger.Get(m, b));
  }

  lemma LeavesApart(l: Ledger.Accounts)
    requires PlainAddresses(l) && RecordsFit(l)
    ensures LeafTagged(LeafList(l)) && Distinct(LeafList(l))
  {
    hide SortedList, Covered, CoveredAddresses, AccountKey, AccountBytes, LexLess, PlainAddresses, RecordsFit;
    var addrs := SortedList(CoveredAddresses(l));
    SortedListMembers(CoveredAddresses(l));
    forall i, j | 0 <= i < j < |LeafList(l)|
      ensures LeafList(l)[i] != LeafList(l)[j]
    {
      if LeafList(l)[i] == LeafList(l)[j] {
        SameLeaf(l, i, l, j);
        LexTrichotomy(addrs[i], addrs[j]);
        assert false;
      }
    }
  }

  lemma RootIsHash(h: Hasher, data: seq<Bytes>)
    requires |data| > 0
    ensures exists x :: x in Preimages(h, data) && Root(h, LeafHashes(h, data)) == h(x)
  {
    hide Left, Right;
    var xs, k := LeafHashes(h, data), Height(|data|);
    if k == 0 {
      assert data[0] in Preimages(h, data);
    } else {
      PreimagesStep(h, xs, k);
      TreeStep(h, xs, k);
    }
  }

  lemma EqualLeavesEqualStates(l: Ledger.Accounts, m: Ledger.Accounts)
    requires PlainAddresses(l) && PlainAddresses(m) && RecordsFit(l) && LeafList(l) == LeafList(m)
    ensures Visible(l) == Visible(m)
  {
    hide SortedList, Covered, LexLess, LeafData, AccountBytes, AccountKey, LeafList, PlainAddresses, RecordsFit;
    var s, t := CoveredAddresses(l), CoveredAddresses(m);
    assert |LeafList(l)| == |SortedList(s)| && |LeafList(m)| == |SortedList(t)| by {
      LeafCount(l);
      LeafCount(m);
    }
    forall i | 0 <= i < |LeafList(l)|
      ensures SortedList(s)[i] == SortedList(t)[i]
      ensures SortedList(s)[i] in l && SortedList(s)[i] in m && l[SortedList(s)[i]] == m[SortedList(s)[i]]
    {
      SameLeaf(l, i, m, i);
    }
    assert SortedList(s) == SortedList(t);
    SortedListMembers(s);
    SortedListMembers(t);
    assert s == t;
    forall a | a in s
      ensures l[a] == m[a]
    {
      var i :| 0 <= i < |SortedList(s)| && SortedList(s)[i] == a;
    }
  }

  lemma LeafCount(l: Ledger.Accounts)
    ensures |LeafList(l)| == |SortedList(CoveredAddresses(l))|
  {
  }

  lemma EqualStatesEqualLeaves(l: Ledger.Accounts, m: Ledger.Accounts)
    requires Visible(l) == Visible(m)
    ensures LeafList(l) == LeafList(m)
  {
    hide SortedList, Covered, LeafData, AccountBytes, AccountKey;
    var s := CoveredAddresses(l);
    assert s == Visible(l).Keys && CoveredAddresses(m) == Visible(m).Keys;
    SortedListMembers(s);
    forall i | 0 <= i < |SortedList(s)|
      ensures Ledger.Get(l, SortedList(s)[i]) == Ledger.Get(m, SortedList(s)[i])
    {
      var a := SortedList(s)[i];
      assert a in SortedList(s);
      assert a in s && Visible(l)[a] == Visible(m)[a];
    }
  }

  /**
   * Two states have the same root exactly when they agree on every covered account, whatever
   * their sizes, if the hash has no collision among the byte strings hashed for the two roots.
   */
  lemma RootDeterminesState(h: Hasher, l: Ledger.Accounts, m: Ledger.Accounts)
    requires PlainAddresses(l) && PlainAddresses(m) && RecordsFit(l) && RecordsFit(m)
    requires CollisionFree(h, HashedFor(h, l) + HashedFor(h, m))
    requires forall x :: x in HashedFor(h, l) + HashedFor(h, m) ==> h(x) != ZERO_HASH
    ensures StateRoot(h, l) == StateRoot(h, m) <==> Visible(l) == Visible(m)
  {
    hide LeafList, Preimages, CollisionFree, Root, PlainAddresses, RecordsFit, Visible;
    if Visible(l) == Visible(m) {
      EqualStatesEqualLeaves(l, m);
    }
    if StateRoot(h, l) == StateRoot(h, m) {
      SameRootSameLeaves(h, l, m);
      EqualLeavesEqualStates(l, m);
    }
  }

  lemma SameRootSameLeaves(h: Hasher, l: Ledger.Accounts, m: Ledger.Accounts)
    requires PlainAddresses(l) && PlainAddresses(m) && RecordsFit(l) && RecordsFit(m)
    requires CollisionFree(h, HashedFor(h, l) + HashedFor(h, m))
    requires forall x :: x in HashedFor(h, l) + HashedFor(h, m) ==> h(x) != ZERO_HASH
    requires StateRoot(h, l) == StateRoot(h, m)
    ensures LeafList(l) == LeafList(m)
  {
    hide LeafList, Preimages, CollisionFree, Root, PlainAddresses, RecordsFit;
    var ds, es := LeafList(l), LeafList(m);
    if |ds| > 0 {
      RootIsHash(h, ds);
    }
    if |es| > 0 {
      RootIsHash(h, es);
    }
    if |ds| > 0 && |es| > 0 {
      LeavesApart(l);
      LeavesApart(m);
      RootDeterminesData(h, ds, es);
    }
  }

  /** A change to an account whose address starts with byte 0xFF leaves every root as it was. */
  lemma UncoveredUnseen(h: Hasher, l: Ledger.Accounts, x: Account)
    requires x.address != [] && x.address[0] == 0xFF
    ensures StateRoot(h, Ledger.Put(l, x)) == StateRoot(h, l)
  {
    hide LeafList;
    assert Visible(Ledger.Put(l, x)) == Visible(l);
    EqualStatesEqualLeaves(Ledger.Put(l, x), l);
  }

  // ----- why addresses must be plain -----

  const ZERO_FIELDS: Bytes := [16, 0, 24, 0, 32, 0, 40, 0, 48, 0, 56, 0]

  lemma EncodeMore(f: Wire.Printed, rest: seq<Wire.Printed>)
    ensures Wire.Encode([f] + rest) == Wire.EncodeField(f) + Wire.Encode(rest)
  {
    assert ([f] + rest)[1..] == rest;
  }

  lemma ZeroNumber(num: nat, rest: seq<Wire.Printed>)
    requires 1 <= num < 16
    ensures Wire.Encode([Wire.Field(num, Wire.Number(0))] + rest) == [num * 8, 0] + Wire.Encode(rest)
  {
    hide Wire.Encode;
    EncodeMore(Wire.Field(num, Wire.Number(0)), rest);
    ZeroNumberBytes(num);
  }

  lemma ZeroNumberBytes(num: nat)
    requires 1 <= num < 16
    ensures Wire.EncodeField(Wire.Field(num, Wire.Number(0))) == [num * 8, 0]
  {
  }

  lemma ShortChunk(num: nat, b: Bytes)
    requires 1 <= num < 16 && |b| < 128
    ensures Wire.EncodeField(Wire.Field(num, Wire.Chunk(b))) == [num * 8 + 2, |b|] + b
  {
  }

  function ZeroRun(num: nat): (fs: seq<Wire.Printed>)
    requires 2 <= num <= 8
    decreases 8 - num
  {
    if num == 8 then [] else [Wire.Field(num, Wire.Number(0))] + ZeroRun(num + 1)
  }

  lemma {:induction false} ZeroRunBytes(num: nat)
    requires 2 <= num <= 8
    ensures Wire.Encode(ZeroRun(num)) == ZERO_FIELDS[2 * (num - 2)..]
    decreases 8 - num
  {
    hide Wire.Encode;
    ZeroFieldsStep(num);
    if num == 8 {
      EncodeNothing();
    } else {
      ZeroNumber(num, ZeroRun(num + 1));
      ZeroRunBytes(num + 1);
    }
  }

  lemma EncodeNothing()
    ensures Wire.Encode([]) == []
  {
  }

  lemma ZeroFieldsStep(num: nat)
    requires 2 <= num <= 8
    ensures num == 8 ==> ZERO_FIELDS[2 * (num - 2)..] == []
    ensures num < 8 ==> ZERO_FIELDS[2 * (num - 2)..] == [num * 8, 0] + ZERO_FIELDS[2 * (num + 1 - 2)..]
  {
  }

  /** The record of an account that has only an address and, perhaps, code. */
  function Bare(a: Address, code: Bytes): Account { ZeroAccount(a).(code := code) }

  lemma BareBytes(a: Address, code: Bytes)
    requires |a| < 128 && |code| < 128
    ensures AccountBytes(Bare(a, code))
         == [10, |a|] + a + ZERO_FIELDS + if code == [] then [] else [66, |code|] + code
  {
    hide Wire.Encode, Wire.EncodeField, ZeroRun, FixedFields;
    var x := Bare(a, code);
    BareFixed(a, code);
    EncodeMore(Wire.Field(1, Wire.Chunk(a)), ZeroRun(2));
    ShortChunk(1, a);
    ZeroRunBytes(2);
    assert ZERO_FIELDS[0..] == ZERO_FIELDS;
    if code == [] {
      assert AccountFields(x) == FixedFields(x);
    } else {
      assert AccountFields(x) == FixedFields(x) + [Wire.Field(8, Wire.Chunk(code))];
      Wire.EncodeSnoc(FixedFields(x), Wire.Field(8, Wire.Chunk(code)));
      ShortChunk(8, code);
    }
  }

  lemma BareFixed(a: Address, code: Bytes)
    ensures FixedFields(Bare(a, code)) == [Wire.Field(1, Wire.Chunk(a))] + ZeroRun(2)
  {
    assert ZeroRun(5) == [Wire.Field(5, Wire.Number(0)), Wire.Field(6, Wire.Number(0)), Wire.Field(7, Wire.Number(0))];
  }

  /** Code free of what the contract engine takes for floating-point opcodes. */
  predicate NoFloats(b: Bytes) { forall i :: 0 <= i < |b| ==> !Contracts.FloatOpcode(b[i]) }

  lemma NoFloatsConcat(b: Bytes, c: Bytes)
    requires NoFloats(b) && NoFloats(c)
    ensures NoFloats(b + c)
  {
  }

  /** An empty WebAssembly module, version 1, up to the contents of one unnamed custom section of n bytes. */
  function ModuleAround(n: nat): Bytes
    requires n < 127
  {
    Contracts.WASM_MAGIC + [1, 0, 0, 0] + [0, n + 1, 0]
  }

  /**
   * An address that, put after a key prefix, reads as a followed by the record of a contract up to
   * its stored account.
   */
  function ShadowAddress(a: Address): Address
    requires |a| <= 37
  {
    a + ([10, |a|] + a + ZERO_FIELDS + [66, 2 * |a| + 52] + ModuleAround(2 * |a| + 41))
  }

  /** A module whose custom section holds the record of the shadow address's empty account. */
  function ShadowCode(a: Address): Bytes
    requires |a| <= 37
  {
    ModuleAround(2 * |a| + 41) + ([10, |ShadowAddress(a)|] + ShadowAddress(a) + ZERO_FIELDS)
  }

  lemma ShadowSizes(a: Address)
    requires |a| <= 37
    ensures |ShadowAddress(a)| == 2 * |a| + 27 && |ShadowCode(a)| == 2 * |a| + 52
  {
  }

  lemma ShadowExtends(a: Address)
    requires |a| <= 37
    ensures a < ShadowAddress(a)
  {
  }

  /** The scan for floating-point opcodes passes, but for three lengths that happen to look like one. */
  lemma ShadowCodeValid(a: Address)
    requires |a| <= 37 && |a| !in {8, 13, 20} && NoFloats(a)
    ensures Contracts.ValidateWasmCode(ShadowCode(a))
  {
    ShadowSizes(a);
    var shell := ModuleAround(2 * |a| + 41);
    assert NoFloats(shell) && NoFloats([10, |a|]) && NoFloats(ZERO_FIELDS) && NoFloats([66, 2 * |a| + 52]);
    NoFloatsConcat([10, |a|], a);
    NoFloatsConcat([10, |a|] + a, ZERO_FIELDS);
    NoFloatsConcat([10, |a|] + a + ZERO_FIELDS, [66, 2 * |a| + 52]);
    NoFloatsConcat([10, |a|] + a + ZERO_FIELDS + [66, 2 * |a| + 52], shell);
    NoFloatsConcat(a, [10, |a|] + a + ZERO_FIELDS + [66, 2 * |a| + 52] + shell);
    ShadowCodeScanned(a);
  }

  lemma ShadowCodeScanned(a: Address)
    requires |a| <= 37 && |a| !in {8, 13, 20} && NoFloats(ShadowAddress(a)) && NoFloats(ModuleAround(2 * |a| + 41))
    ensures Contracts.ValidateWasmCode(ShadowCode(a))
  {
    hide ShadowAddress, NoFloats;
    var b, shell := ShadowAddress(a), ModuleAround(2 * |a| + 41);
    ShadowSizes(a);
    SmallNoFloats(|b|);
    NoFloatsConcat([10, |b|], b);
    NoFloatsConcat([10, |b|] + b, ZERO_FIELDS);
    NoFloatsConcat(shell, [10, |b|] + b + ZERO_FIELDS);
    NoFloatsMeans(ShadowCode(a));
    assert ShadowCode(a)[..4] == Contracts.WASM_MAGIC;
  }

  lemma SmallNoFloats(n: nat)
    requires n < 128 && n != 0x43 && n != 0x44
    ensures NoFloats([10, n]) && NoFloats(ZERO_FIELDS)
  {
  }

  lemma NoFloatsMeans(b: Bytes)
    requires NoFloats(b)
    ensures forall i :: 0 <= i < |b| ==> !Contracts.FloatOpcode(b[i])
  {
  }

  /**
   * Without plain addresses the leaves are ambiguous: for every short address there are two
   * different accounts with one leaf, a contract's whose code the engine accepts, and an
   * empty one under an address that starts with the contract's.
   */
  lemma LeafAmbiguous(a: Address)
    requires |a| <= 37
    ensures a < ShadowAddress(a) && |ShadowAddress(a)| < 128
    ensures LeafData(AccountKey(a), AccountBytes(Bare(a, ShadowCode(a))))
         == LeafData(AccountKey(ShadowAddress(a)), AccountBytes(Bare(ShadowAddress(a), [])))
  {
    hide AccountBytes, ModuleAround, Bare;
    var b, code, shell := ShadowAddress(a), ShadowCode(a), ModuleAround(2 * |a| + 41);
    var record, tail := [10, |a|] + a + ZERO_FIELDS, [10, |b|] + b + ZERO_FIELDS;
    ShadowSizes(a);
    BareBytes(b, []);
    BareBytes(a, code);
    assert tail + [] == tail;
    Regroup([0], AccountStore.ACCOUNT_PREFIX, a, record, [66, |code|], shell, tail);
  }

  lemma Regroup(tag: Bytes, prefix: Bytes, a: Bytes, record: Bytes, head: Bytes, shell: Bytes, tail: Bytes)
    ensures tag + (prefix + a) + (record + (head + (shell + tail)))
         == tag + (prefix + (a + (record + head + shell))) + tail
  {
  }
}
