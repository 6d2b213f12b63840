/** The key-value store behind the accounts, and the overlay a block is executed on (pkg/state/store.go). */
module AccountStore {
  import opened Wrappers
  import opened Machine
  import opened Types
  import opened AccountCodec
  import opened TimestampCodec
  import Encoding
  import Wire
  import Ledger

  type KV = map<Bytes, Bytes>

  const ACCOUNT_PREFIX: Bytes := [0x61, 0x63, 0x63, 0x74, 0x2F] // "acct/"
  const BLOCK_PREFIX: Bytes := [0x62, 0x6C, 0x6F, 0x63, 0x6B, 0x2F] // "block/"
  const HEIGHT_PREFIX: Bytes := [0x62, 0x6C, 0x6F, 0x63, 0x6B, 0x5F, 0x68, 0x65, 0x69, 0x67, 0x68, 0x74,
                                 0x2F] // "block_height/"
  const TIMESTAMPS_KEY: Bytes := [0x6D, 0x65, 0x74, 0x61, 0x2F, 0x6C, 0x61, 0x73, 0x74, 0x5F, 0x74, 0x69, 0x6D,
                                  0x65, 0x73, 0x74, 0x61, 0x6D, 0x70, 0x73] // "meta/last_timestamps"

  /** A string literal as the bytes Go stores. */
  function Ascii(s: string): Bytes { seq(|s|, i requires 0 <= i < |s| => s[i] as int % 256) }

  /** The keys, as the source spells them. */
  lemma KeysSpelled()
    ensures ACCOUNT_PREFIX == Ascii("acct/") && BLOCK_PREFIX == Ascii("block/")
    ensures HEIGHT_PREFIX == Ascii("block_height/")
  {
  }

  lemma WindowKeySpelled()
    ensures TIMESTAMPS_KEY == Ascii("meta/last_timestamps")
  {
  }

  function AccountKey(a: Address): Bytes { ACCOUNT_PREFIX + a }

  predicate IsAccountKey(k: Bytes) { ACCOUNT_PREFIX <= k }

  function AddressOf(k: Bytes): Address
    requires IsAccountKey(k)
  {
    k[|ACCOUNT_PREFIX|..]
  }

  lemma KeyRoundTrip(a: Address)
    ensures IsAccountKey(AccountKey(a)) && AddressOf(AccountKey(a)) == a
  {
  }

  lemma KeyOfAddress(k: Bytes)
    requires IsAccountKey(k)
    ensures AccountKey(AddressOf(k)) == k
  {
  }

  /** No byte string of the process is larger than this: Go allocates at most 2^48 bytes at once. */
  const MAX_ALLOC: int := 0x1_0000_0000_0000

  predicate FitsMemory(b: Bytes) { |b| <= MAX_ALLOC }

  predicate AccountFits(a: Account) { FitsMemory(a.address) && FitsMemory(a.code) && FitsMemory(a.pubKey) }

  /** The bytes under k are those of an account with k's address. */
  predicate GoodRecord(k: Bytes, v: Bytes)
    requires IsAccountKey(k)
  {
    && DecodeAccount(v).Some?
    && AccountBytes(DecodeAccount(v).value) == v
    && DecodeAccount(v).value.address == AddressOf(k)
    && AccountFits(DecodeAccount(v).value)
  }

  /** Invariant of every store the node writes. */
  ghost predicate WellFormed(kv: KV) {
    && (forall k :: k in kv && IsAccountKey(k) ==> GoodRecord(k, kv[k]))
    && (TIMESTAMPS_KEY in kv ==> DecodeWindow(kv[TIMESTAMPS_KEY]).Some?)
  }

  /** The accounts a store holds. */
  ghost function LedgerOf(kv: KV): Ledger.Accounts
    requires WellFormed(kv)
  {
    map a | a in (set k | k in kv && IsAccountKey(k) :: AddressOf(k)) && AccountKey(a) in kv ::
      (KeyRoundTrip(a); DecodeAccount(kv[AccountKey(a)]).value)
  }

  ghost function WindowOf(kv: KV): seq<int64>
    requires WellFormed(kv)
  {
    if TIMESTAMPS_KEY in kv then DecodeWindow(kv[TIMESTAMPS_KEY]).value else []
  }

  lemma LedgerKeys(kv: KV, a: Address)
    requires WellFormed(kv)
    ensures a in LedgerOf(kv) <==> AccountKey(a) in kv
    ensures a in LedgerOf(kv) ==>
              LedgerOf(kv)[a] == DecodeAccount(kv[AccountKey(a)]).value && LedgerOf(kv)[a].address == a
  {
    KeyRoundTrip(a);
  }

  /** An account is stored under its address, and the window under a key of its own. */
  lemma RecordsMean(kv: KV, a: Address)
    requires WellFormed(kv)
    ensures a in LedgerOf(kv) <==> Ascii("acct/") + a in kv
    ensures a in LedgerOf(kv) ==>
              LedgerOf(kv)[a].address == a && kv[Ascii("acct/") + a] == AccountBytes(LedgerOf(kv)[a])
    ensures var key := Ascii("meta/last_timestamps");
      if key in kv then DecodeWindow(kv[key]) == Some(WindowOf(kv)) else WindowOf(kv) == []
  {
    hide AccountBytes, DecodeAccount, DecodeWindow, Ascii;
    KeysSpelled();
    WindowKeySpelled();
    LedgerKeys(kv, a);
    KeyRoundTrip(a);
  }

  /** The account codec carries every record that fits. */
  lemma {:induction false} RecordFits(a: Account)
    requires AccountFits(a)
    ensures |AccountBytes(a)| <= MAX64
  {
    Wire.EncodedSize(AccountFields(a), MAX_ALLOC);
  }

  lemma TimestampsApart()
    ensures !IsAccountKey(TIMESTAMPS_KEY)
  {
    assert TIMESTAMPS_KEY[0] != ACCOUNT_PREFIX[0];
  }

  lemma PutWellFormed(kv: KV, a: Account)
    requires WellFormed(kv) && AccountFits(a)
    ensures WellFormed(kv[AccountKey(a.address) := AccountBytes(a)])
    ensures DecodeAccount(AccountBytes(a)) == Some(a)
  {
    hide DecodeAccount, AccountBytes, DecodeWindow, AccountKey, IsAccountKey, AddressOf;
    RecordFits(a);
    AccountRoundTrip(a);
    KeyRoundTrip(a.address);
    TimestampsApart();
  }

  lemma PutAt(kv: KV, a: Account, b: Address)
    requires WellFormed(kv) && WellFormed(kv[AccountKey(a.address) := AccountBytes(a)])
    requires DecodeAccount(AccountBytes(a)) == Some(a)
    ensures var l := LedgerOf(kv[AccountKey(a.address) := AccountBytes(a)]);
      && (b in l <==> b == a.address || b in LedgerOf(kv))
      && (b in l ==> l[b] == if b == a.address then a else LedgerOf(kv)[b])
  {
    hide DecodeAccount, AccountBytes, DecodeWindow, AccountKey, IsAccountKey, AddressOf, WellFormed, LedgerOf;
    KeyRoundTrip(a.address);
    KeyRoundTrip(b);
    LedgerKeys(kv, b);
    LedgerKeys(kv[AccountKey(a.address) := AccountBytes(a)], b);
  }

  lemma PutWindow(kv: KV, a: Account)
    requires WellFormed(kv) && WellFormed(kv[AccountKey(a.address) := AccountBytes(a)])
    ensures WindowOf(kv[AccountKey(a.address) := AccountBytes(a)]) == WindowOf(kv)
  {
    hide DecodeAccount, AccountBytes, DecodeWindow, AccountKey, IsAccountKey;
    TimestampsApart();
    KeyRoundTrip(a.address);
  }

  /** Storing an account is updating the map of accounts. */
  lemma PutGood(kv: KV, a: Account)
    requires WellFormed(kv) && AccountFits(a)
    ensures var kv' := kv[AccountKey(a.address) := AccountBytes(a)];
      WellFormed(kv') && LedgerOf(kv') == Ledger.Put(LedgerOf(kv), a) && WindowOf(kv') == WindowOf(kv)
  {
    hide DecodeAccount, AccountBytes, AccountKey, WellFormed, LedgerOf, WindowOf;
    PutWellFormed(kv, a);
    PutWindow(kv, a);
    forall b
      ensures b in LedgerOf(kv[AccountKey(a.address) := AccountBytes(a)]) <==> b in Ledger.Put(LedgerOf(kv), a)
      ensures b in Ledger.Put(LedgerOf(kv), a) ==>
                LedgerOf(kv[AccountKey(a.address) := AccountBytes(a)])[b] == Ledger.Put(LedgerOf(kv), a)[b]
    {
      PutAt(kv, a, b);
    }
  }

  /** Writing under any other key leaves the accounts alone. */
  lemma PutElsewhere(kv: KV, k: Bytes, v: Bytes)
    requires WellFormed(kv) && !IsAccountKey(k) && (k == TIMESTAMPS_KEY ==> DecodeWindow(v).Some?)
    ensures WellFormed(kv[k := v]) && LedgerOf(kv[k := v]) == LedgerOf(kv)
    ensures WindowOf(kv[k := v]) == if k == TIMESTAMPS_KEY then DecodeWindow(v).value else WindowOf(kv)
  {
    hide DecodeAccount, AccountBytes, DecodeWindow, AccountKey, IsAccountKey, AddressOf, LedgerOf, GoodRecord;
    forall b
      ensures b in LedgerOf(kv[k := v]) <==> b in LedgerOf(kv)
      ensures b in LedgerOf(kv) ==> LedgerOf(kv[k := v])[b] == LedgerOf(kv)[b]
    {
      LedgerKeys(kv, b);
      LedgerKeys(kv[k := v], b);
      KeyRoundTrip(b);
    }
  }

  lemma BlockKeysApart(hash: Hash, height: uint64)
    ensures !IsAccountKey(BLOCK_PREFIX + hash) && BLOCK_PREFIX + hash != TIMESTAMPS_KEY
    ensures !IsAccountKey(HEIGHT_PREFIX + BigEndian(height, 8))
        && HEIGHT_PREFIX + BigEndian(height, 8) != TIMESTAMPS_KEY
    ensures BLOCK_PREFIX + hash != HEIGHT_PREFIX + BigEndian(height, 8)
  {
    var b, h := BLOCK_PREFIX + hash, HEIGHT_PREFIX + BigEndian(height, 8);
    assert b[0] == 0x62 && h[0] == 0x62 && b[5] == 0x2F && h[5] == 0x5F;
  }

  lemma BothBlockKeys(kv: KV, block: Block, hash: Hash)
    requires WellFormed(kv)
    ensures var blockKey, heightKey := BLOCK_PREFIX + hash, HEIGHT_PREFIX + BigEndian(block.height, 8);
      var kv' := kv[blockKey := Encoding.BlockBytes(block)][heightKey := hash];
      WellFormed(kv') && LedgerOf(kv') == LedgerOf(kv) && WindowOf(kv') == WindowOf(kv)
  {
    hide WellFormed, LedgerOf, WindowOf, Encoding.BlockBytes, IsAccountKey;
    BlockKeysApart(hash, block.height);
    PutElsewhere(kv, BLOCK_PREFIX + hash, Encoding.BlockBytes(block));
    PutElsewhere(kv[BLOCK_PREFIX + hash := Encoding.BlockBytes(block)],
      HEIGHT_PREFIX + BigEndian(block.height, 8), hash);
  }

  lemma TwoWrites(kv: KV, writes: KV, a: Bytes, x: Bytes, b: Bytes, y: Bytes)
    ensures kv + writes[a := x][b := y] == (kv + writes)[a := x][b := y]
  {
  }

  class Store {
    var kv: KV

    constructor ()
      ensures kv == map[] && WellFormed(kv)
    {
      kv := map[];
    }

    ghost predicate Valid()
      reads this
    {
      WellFormed(kv)
    }

    ghost function Accounts(): Ledger.Accounts
      reads this
      requires Valid()
    {
      LedgerOf(kv)
    }

    ghost function Window(): seq<int64>
      reads this
      requires Valid()
    {
      WindowOf(kv)
    }

    method GetLastTimestamps() returns (ts: seq<int64>)
      requires Valid()
      ensures ts == Window()
    {
      if TIMESTAMPS_KEY !in kv {
        return [];
      }
      var decoded := DecodeTimestamps(kv[TIMESTAMPS_KEY]);
      ts := decoded.value;
    }
  }

  /** A batch: reads see its own writes first, then the store; nothing reaches the store before Commit. */
  class Batch {
    const store: Store
    var writes: KV

    constructor (store: Store)
      ensures this.store == store && writes == map[]
    {
      this.store := store;
      writes := map[];
    }

    /** The store as it would be after Commit. */
    function Merged(): KV
      reads this, store
    {
      store.kv + writes
    }

    ghost predicate Valid()
      reads this, store
    {
      WellFormed(Merged())
    }

    ghost function Accounts(): Ledger.Accounts
      reads this, store
      requires Valid()
    {
      LedgerOf(Merged())
    }

    ghost function Window(): seq<int64>
      reads this, store
      requires Valid()
    {
      WindowOf(Merged())
    }

    method Get(key: Bytes) returns (v: Option<Bytes>)
      ensures v == if key in Merged() then Some(Merged()[key]) else None
    {
      if key in writes {
        return Some(writes[key]);
      }
      if key in store.kv {
        return Some(store.kv[key]);
      }
      return None;
    }

    /** The `get` closure: the stored account, or a zero account for a missing one. */
    method GetAccount(addr: Address) returns (acct: Account)
      requires Valid()
      ensures acct == Ledger.Get(Accounts(), addr)
      ensures FitsMemory(addr) ==> AccountFits(acct)
    {
      LedgerKeys(Merged(), addr);
      var val := Get(AccountKey(addr));
      if val.None? {
        return ZeroAccount(addr);
      }
      KeyRoundTrip(addr);
      var decoded := UnmarshalAccount(val.value);
      acct := decoded.value;
    }

    /** The `set` closure. */
    method SetAccount(acct: Account)
      requires Valid() && AccountFits(acct)
      modifies this
      ensures Valid() && Accounts() == Ledger.Put(old(Accounts()), acct) && Window() == old(Window())
    {
      hide WellFormed, LedgerOf, WindowOf, AccountBytes, AccountKey, Ledger.Put;
      PutGood(Merged(), acct);
      var val := MarshalAccount(acct);
      ghost var after := Merged()[AccountKey(acct.address) := val];
      writes := writes[AccountKey(acct.address) := val];
      assert Merged() == after;
    }

    method SetLastTimestamps(ts: seq<int64>)
      requires Valid() && |ts| < TWO32
      modifies this
      ensures Valid() && Accounts() == old(Accounts()) && Window() == ts
    {
      hide WellFormed, LedgerOf, WindowOf, WindowBytes, DecodeWindow;
      WindowRoundTrip(ts);
      TimestampsApart();
      PutElsewhere(Merged(), TIMESTAMPS_KEY, WindowBytes(ts));
      var val := EncodeTimestamps(ts);
      ghost var after := Merged()[TIMESTAMPS_KEY := val];
      writes := writes[TIMESTAMPS_KEY := val];
      assert Merged() == after;
    }

    method SetBlock(block: Block, hash: Hash)
      requires Valid()
      modifies this
      ensures Valid() && Accounts() == old(Accounts()) && Window() == old(Window())
      ensures var blockKey, heightKey := Ascii("block/") + hash, Ascii("block_height/") + BigEndian(block.height, 8);
        Merged() == old(Merged())[blockKey := Encoding.BlockBytes(block)][heightKey := hash]
    {
      hide WellFormed, LedgerOf, WindowOf, Encoding.BlockBytes, IsAccountKey, BigEndian;
      BlockKeysApart(hash, block.height);
      BothBlockKeys(Merged(), block, hash);
      KeysSpelled();
      var bytes := Encoding.MarshalBlock(block);
      var blockKey, heightKey := BLOCK_PREFIX + hash, HEIGHT_PREFIX + BigEndian(block.height, 8);
      TwoWrites(store.kv, writes, blockKey, bytes, heightKey, hash);
      writes := writes[blockKey := bytes];
      writes := writes[heightKey := hash];
    }

    /** All writes reach the store at once. */
    method Commit()
      requires Valid()
      modifies store
      ensures store.kv == old(Merged()) && store.Valid()
    {
      store.kv := store.kv + writes;
    }
  }
}
