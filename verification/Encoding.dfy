/** Transactions, blocks and votes on the wire (pkg/encoding). */
module Encoding {
  import opened Wrappers
  import opened Machine
  import opened Types
  import opened Wire

  // ----- what the messages consist of -----

  function TxFields(tx: Transaction): seq<Printed> {
    [Field(1, Chunk(tx.from)), Field(2, Chunk(tx.to)), Field(3, Number(tx.nonce)),
     Field(4, Chunk(tx.payload)), Field(5, Chunk(tx.signature))]
  }

  function TxBytes(tx: Transaction): Bytes { Encode(TxFields(tx)) }

  function HeaderFields(b: Block): seq<Printed> {
    [Field(1, Number(b.height)), Field(2, Chunk(b.prevHash)), Field(3, Chunk(b.stateRoot)),
     Field(4, Number(ToUnsigned(b.timestamp))), Field(5, Chunk(b.proposer))]
  }

  function TxListFields(txs: seq<Transaction>): (fs: seq<Printed>)
    ensures |fs| == |txs| && forall i :: 0 <= i < |txs| ==> fs[i] == Field(6, Chunk(TxBytes(txs[i])))
  {
    seq(|txs|, i requires 0 <= i < |txs| => Field(6, Chunk(TxBytes(txs[i]))))
  }

  function SigFields(sigs: seq<Bytes>): (fs: seq<Printed>)
    ensures |fs| == |sigs| && forall i :: 0 <= i < |sigs| ==> fs[i] == Field(7, Chunk(sigs[i]))
  {
    seq(|sigs|, i requires 0 <= i < |sigs| => Field(7, Chunk(sigs[i])))
  }

  function BlockBytesForHash(b: Block): Bytes {
    Encode(HeaderFields(b) + TxListFields(b.transactions))
  }

  function BlockBytes(b: Block): Bytes {
    Encode(HeaderFields(b) + TxListFields(b.transactions) + SigFields(b.validatorSigs))
  }

  function VoteFields(v: PrecommitVote): seq<Printed> {
    [Field(1, Chunk(v.blockHash)), Field(2, Number(v.height)), Field(3, Number(v.round)),
     Field(4, Chunk(v.validator)), Field(5, Chunk(v.signature))]
  }

  function VoteBytes(v: PrecommitVote): Bytes { Encode(VoteFields(v)) }

  function ProposalFields(p: Proposal): seq<Printed> {
    [Field(1, Chunk(BlockBytes(p.block))), Field(2, Number(p.round)), Field(3, Chunk(p.proposerSig))]
  }

  function ProposalBytes(p: Proposal): Bytes { Encode(ProposalFields(p)) }

  function ViewChangeFields(vc: ViewChange): seq<Printed> {
    [Field(1, Number(vc.height)), Field(2, Number(vc.round)), Field(3, Chunk(vc.validator)),
      Field(4, Chunk(vc.signature))]
  }

  function ViewChangeBytes(vc: ViewChange): Bytes { Encode(ViewChangeFields(vc)) }

  // ----- the messages byte by byte -----

  /** Each message is the fields of its schema in order, under key bytes of field number times eight plus wire type. */
  lemma TxLayout(tx: Transaction)
    ensures TxBytes(tx)
         == ChunkField(0x0A, tx.from) + ChunkField(0x12, tx.to) + NumberField(0x18, tx.nonce)
            + ChunkField(0x22, tx.payload) + ChunkField(0x2A, tx.signature)
  {
    hide Encode, EncodeField, NumberField, ChunkField;
    var fs := TxFields(tx);
    EncodePrefixes(fs);
    FieldLayout(fs[0]);
    FieldLayout(fs[1]);
    FieldLayout(fs[2]);
    FieldLayout(fs[3]);
    FieldLayout(fs[4]);
  }

  lemma VoteLayout(v: PrecommitVote)
    ensures VoteBytes(v)
         == ChunkField(0x0A, v.blockHash) + NumberField(0x10, v.height) + NumberField(0x18, v.round)
            + ChunkField(0x22, v.validator) + ChunkField(0x2A, v.signature)
  {
    hide Encode, EncodeField, NumberField, ChunkField;
    var fs := VoteFields(v);
    EncodePrefixes(fs);
    FieldLayout(fs[0]);
    FieldLayout(fs[1]);
    FieldLayout(fs[2]);
    FieldLayout(fs[3]);
    FieldLayout(fs[4]);
  }

  lemma ProposalLayout(p: Proposal)
    ensures ProposalBytes(p)
         == ChunkField(0x0A, BlockBytes(p.block)) + NumberField(0x10, p.round) + ChunkField(0x1A, p.proposerSig)
  {
    hide Encode, EncodeField, NumberField, ChunkField, BlockBytes;
    var fs := ProposalFields(p);
    EncodePrefixes(fs);
    FieldLayout(fs[0]);
    FieldLayout(fs[1]);
    FieldLayout(fs[2]);
  }

  lemma ViewChangeLayout(vc: ViewChange)
    ensures ViewChangeBytes(vc)
         == NumberField(0x08, vc.height) + NumberField(0x10, vc.round) + ChunkField(0x1A, vc.validator)
            + ChunkField(0x22, vc.signature)
  {
    hide Encode, EncodeField, NumberField, ChunkField;
    var fs := ViewChangeFields(vc);
    EncodePrefixes(fs);
    FieldLayout(fs[0]);
    FieldLayout(fs[1]);
    FieldLayout(fs[2]);
    FieldLayout(fs[3]);
  }

  lemma HeaderLayout(b: Block)
    ensures Encode(HeaderFields(b))
         == NumberField(0x08, b.height) + ChunkField(0x12, b.prevHash) + ChunkField(0x1A, b.stateRoot)
            + NumberField(0x20, b.timestamp % TWO64) + ChunkField(0x2A, b.proposer)
  {
    hide Encode, EncodeField, NumberField, ChunkField;
    var fs := HeaderFields(b);
    EncodePrefixes(fs);
    FieldLayout(fs[0]);
    FieldLayout(fs[1]);
    FieldLayout(fs[2]);
    FieldLayout(fs[3]);
    FieldLayout(fs[4]);
  }

  /** A block's header fields, then its transactions one by one, and, unless it is hashed, its signatures one by one. */
  lemma BlockLayout(b: Block)
    ensures BlockBytesForHash(b)
         == NumberField(0x08, b.height) + ChunkField(0x12, b.prevHash) + ChunkField(0x1A, b.stateRoot)
            + NumberField(0x20, b.timestamp % TWO64) + ChunkField(0x2A, b.proposer)
            + Joined(seq(|b.transactions|, i requires 0 <= i < |b.transactions| =>
                           ChunkField(0x32, TxBytes(b.transactions[i]))))
    ensures BlockBytes(b)
         == BlockBytesForHash(b)
            + Joined(seq(|b.validatorSigs|, i requires 0 <= i < |b.validatorSigs| =>
                           ChunkField(0x3A, b.validatorSigs[i])))
  {
    hide Encode, EncodeField, Joined, NumberField, ChunkField, TxBytes, HeaderFields;
    var txs := seq(|b.transactions|, i requires 0 <= i < |b.transactions| =>
                     ChunkField(0x32, TxBytes(b.transactions[i])));
    var sigs := seq(|b.validatorSigs|, i requires 0 <= i < |b.validatorSigs| => ChunkField(0x3A, b.validatorSigs[i]));
    HeaderLayout(b);
    forall i | 0 <= i < |txs|
      ensures txs[i] == EncodeField(TxListFields(b.transactions)[i])
    {
      FieldLayout(TxListFields(b.transactions)[i]);
    }
    forall i | 0 <= i < |sigs|
      ensures sigs[i] == EncodeField(SigFields(b.validatorSigs)[i])
    {
      FieldLayout(SigFields(b.validatorSigs)[i]);
    }
    EncodeParts(TxListFields(b.transactions), txs);
    EncodeParts(SigFields(b.validatorSigs), sigs);
    EncodeConcat(HeaderFields(b), TxListFields(b.transactions));
    EncodeConcat(HeaderFields(b) + TxListFields(b.transactions), SigFields(b.validatorSigs));
  }

  // ----- what a parser does with one field -----

  const EMPTY_TX := Transaction([], [], 0, [], [])
  const EMPTY_BLOCK := Block(0, ZERO_HASH, ZERO_HASH, 0, [], [], [])

  function TxStep(tx: Transaction, f: Field): Option<Transaction> {
    match f.num
    case 1 => if f.value.Chunk? then Some(tx.(from := f.value.b)) else None
    case 2 => if f.value.Chunk? then Some(tx.(to := f.value.b)) else None
    case 3 => if f.value.Number? then Some(tx.(nonce := f.value.v)) else None
    case 4 => if f.value.Chunk? then Some(tx.(payload := f.value.b)) else None
    case 5 => if f.value.Chunk? then Some(tx.(signature := f.value.b)) else None
    case _ => Some(tx)
  }

  function DecodeTx(b: Bytes): Option<Transaction> {
    DecodeMessage(b, EMPTY_TX, TxStep)
  }

  function BlockStep(blk: Block, f: Field): Option<Block> {
    match f.num
    case 1 => if f.value.Number? then Some(blk.(height := f.value.v)) else None
    case 2 => if f.value.Chunk? && |f.value.b| == 32 then Some(blk.(prevHash := f.value.b)) else None
    case 3 => if f.value.Chunk? && |f.value.b| == 32 then Some(blk.(stateRoot := f.value.b)) else None
    case 4 => if f.value.Number? then Some(blk.(timestamp := ToSigned(f.value.v))) else None
    case 5 => if f.value.Chunk? then Some(blk.(proposer := f.value.b)) else None
    case 6 =>
      if !f.value.Chunk? then None
      else
        (match DecodeTx(f.value.b)
         case None => None
         case Some(tx) => Some(blk.(transactions := blk.transactions + [tx])))
    case 7 => if f.value.Chunk? then Some(blk.(validatorSigs := blk.validatorSigs + [f.value.b])) else None
    case _ => Some(blk)
  }

  function DecodeBlock(b: Bytes): Option<Block> {
    DecodeMessage(b, EMPTY_BLOCK, BlockStep)
  }

  // ----- the marshallers -----

  method MarshalTransaction(tx: Transaction) returns (b: Bytes)
    ensures b == TxBytes(tx)
  {
    var fs := TxFields(tx);
    EncodePrefixes(fs);
    b := [];
    AppendField(b, fs[0]);
    b := AppendTag(b, 1, BYTES);
    b := AppendBytes(b, tx.from);
    AppendField(b, fs[1]);
    b := AppendTag(b, 2, BYTES);
    b := AppendBytes(b, tx.to);
    AppendField(b, fs[2]);
    b := AppendTag(b, 3, VARINT);
    b := AppendVarint(b, tx.nonce);
    AppendField(b, fs[3]);
    b := AppendTag(b, 4, BYTES);
    b := AppendBytes(b, tx.payload);
    AppendField(b, fs[4]);
    b := AppendTag(b, 5, BYTES);
    b := AppendBytes(b, tx.signature);
  }

  /** The statements MarshalBlock and MarshalBlockForHash share: header fields, then transactions. */
  method MarshalUnsigned(blk: Block) returns (b: Bytes)
    ensures b == BlockBytesForHash(blk)
  {
    var fs := HeaderFields(blk) + TxListFields(blk.transactions);
    EncodePrefixes(fs);
    b := [];
    AppendField(b, fs[0]);
    b := AppendTag(b, 1, VARINT);
    b := AppendVarint(b, blk.height);
    AppendField(b, fs[1]);
    b := AppendTag(b, 2, BYTES);
    b := AppendBytes(b, blk.prevHash);
    AppendField(b, fs[2]);
    b := AppendTag(b, 3, BYTES);
    b := AppendBytes(b, blk.stateRoot);
    AppendField(b, fs[3]);
    b := AppendTag(b, 4, VARINT);
    b := AppendVarint(b, ToUnsigned(blk.timestamp));
    AppendField(b, fs[4]);
    b := AppendTag(b, 5, BYTES);
    b := AppendBytes(b, blk.proposer);
    for i := 0 to |blk.transactions|
      invariant b == Encode(fs[..5 + i])
    {
      var txBytes := MarshalTransaction(blk.transactions[i]);
      AppendField(b, fs[5 + i]);
      b := AppendTag(b, 6, BYTES);
      b := AppendBytes(b, txBytes);
    }
  }

  method MarshalBlockForHash(blk: Block) returns (b: Bytes)
    ensures b == BlockBytesForHash(blk)
  {
    b := MarshalUnsigned(blk);
  }

  method MarshalBlock(blk: Block) returns (b: Bytes)
    ensures b == BlockBytes(blk)
  {
    var fs := SigFields(blk.validatorSigs);
    EncodePrefixes(fs);
    EncodeConcat(HeaderFields(blk) + TxListFields(blk.transactions), fs);
    b := MarshalUnsigned(blk);
    ghost var unsigned := b;
    for j := 0 to |blk.validatorSigs|
      invariant b == unsigned + Encode(fs[..j])
    {
      AppendField(b, fs[j]);
      b := AppendTag(b, 7, BYTES);
      b := AppendBytes(b, blk.validatorSigs[j]);
      SplitPrinted(unsigned + Encode(fs[..j]), unsigned, Encode(fs[..j]), EncodeField(fs[j]));
    }
  }

  method MarshalPrecommitVote(v: PrecommitVote) returns (b: Bytes)
    ensures b == VoteBytes(v)
  {
    var fs := VoteFields(v);
    EncodePrefixes(fs);
    b := [];
    AppendField(b, fs[0]);
    b := AppendTag(b, 1, BYTES);
    b := AppendBytes(b, v.blockHash);
    AppendField(b, fs[1]);
    b := AppendTag(b, 2, VARINT);
    b := AppendVarint(b, v.height);
    AppendField(b, fs[2]);
    b := AppendTag(b, 3, VARINT);
    b := AppendVarint(b, v.round);
    AppendField(b, fs[3]);
    b := AppendTag(b, 4, BYTES);
    b := AppendBytes(b, v.validator);
    AppendField(b, fs[4]);
    b := AppendTag(b, 5, BYTES);
    b := AppendBytes(b, v.signature);
  }

  method MarshalProposal(p: Proposal) returns (b: Bytes)
    ensures b == ProposalBytes(p)
  {
    hide BlockBytes;
    var fs := ProposalFields(p);
    EncodePrefixes(fs);
    var blockBytes := MarshalBlock(p.block);
    b := [];
    AppendField(b, fs[0]);
    b := AppendTag(b, 1, BYTES);
    b := AppendBytes(b, blockBytes);
    AppendField(b, fs[1]);
    b := AppendTag(b, 2, VARINT);
    b := AppendVarint(b, p.round);
    AppendField(b, fs[2]);
    b := AppendTag(b, 3, BYTES);
    b := AppendBytes(b, p.proposerSig);
  }

  method MarshalViewChange(vc: ViewChange) returns (b: Bytes)
    ensures b == ViewChangeBytes(vc)
  {
    var fs := ViewChangeFields(vc);
    EncodePrefixes(fs);
    b := [];
    AppendField(b, fs[0]);
    b := AppendTag(b, 1, VARINT);
    b := AppendVarint(b, vc.height);
    AppendField(b, fs[1]);
    b := AppendTag(b, 2, VARINT);
    b := AppendVarint(b, vc.round);
    AppendField(b, fs[2]);
    b := AppendTag(b, 3, BYTES);
    b := AppendBytes(b, vc.validator);
    AppendField(b, fs[3]);
    b := AppendTag(b, 4, BYTES);
    b := AppendBytes(b, vc.signature);
  }

  // ----- the parse loops -----

  method UnmarshalTransaction(bytes: Bytes) returns (r: Option<Transaction>)
    ensures r == DecodeTx(bytes)
  {
    if |bytes| == 0 {
      return None;
    }
    var b, tx := bytes, EMPTY_TX;
    while |b| > 0
      invariant Fold(bytes, EMPTY_TX, TxStep) == Fold(b, tx, TxStep)
      decreases |b|
    {
      var tag := ConsumeTag(b);
      if tag.Malformed? {
        return None;
      }
      match tag.value.num {
        case 1 =>
          var v := TakeBytes(b, tag);
          if v.Malformed? { return None; }
          tx := tx.(from := v.value);
          b := b[v.n..];
        case 2 =>
          var v := TakeBytes(b, tag);
          if v.Malformed? { return None; }
          tx := tx.(to := v.value);
          b := b[v.n..];
        case 3 =>
          var v := TakeVarint(b, tag);
          if v.Malformed? { return None; }
          tx := tx.(nonce := v.value);
          b := b[v.n..];
        case 4 =>
          var v := TakeBytes(b, tag);
          if v.Malformed? { return None; }
          tx := tx.(payload := v.value);
          b := b[v.n..];
        case 5 =>
          var v := TakeBytes(b, tag);
          if v.Malformed? { return None; }
          tx := tx.(signature := v.value);
          b := b[v.n..];
        case _ =>
          var v := SkipField(b, tag);
          if v.Malformed? { return None; }
          b := b[v.n..];
      }
    }
    return Some(tx);
  }

  method UnmarshalBlock(bytes: Bytes) returns (r: Option<Block>)
    ensures r == DecodeBlock(bytes)
  {
    if |bytes| == 0 {
      return None;
    }
    var b, blk := bytes, EMPTY_BLOCK;
    while |b| > 0
      invariant Fold(bytes, EMPTY_BLOCK, BlockStep) == Fold(b, blk, BlockStep)
      decreases |b|
    {
      var tag := ConsumeTag(b);
      if tag.Malformed? {
        return None;
      }
      match tag.value.num {
        case 1 =>
          var v := TakeVarint(b, tag);
          if v.Malformed? { return None; }
          blk := blk.(height := v.value);
          b := b[v.n..];
        case 2 =>
          var v := TakeBytes(b, tag);
          if v.Malformed? || |v.value| != 32 { return None; }
          blk := blk.(prevHash := v.value);
          b := b[v.n..];
        case 3 =>
          var v := TakeBytes(b, tag);
          if v.Malformed? || |v.value| != 32 { return None; }
          blk := blk.(stateRoot := v.value);
          b := b[v.n..];
        case 4 =>
          var v := TakeVarint(b, tag);
          if v.Malformed? { return None; }
          blk := blk.(timestamp := ToSigned(v.value));
          b := b[v.n..];
        case 5 =>
          var v := TakeBytes(b, tag);
          if v.Malformed? { return None; }
          blk := blk.(proposer := v.value);
          b := b[v.n..];
        case 6 =>
          var v := TakeBytes(b, tag);
          if v.Malformed? { return None; }
          var tx := UnmarshalTransaction(v.value);
          if tx.None? { return None; }
          blk := blk.(transactions := blk.transactions + [tx.value]);
          b := b[v.n..];
        case 7 =>
          var v := TakeBytes(b, tag);
          if v.Malformed? { return None; }
          blk := blk.(validatorSigs := blk.validatorSigs + [v.value]);
          b := b[v.n..];
        case _ =>
          var v := SkipField(b, tag);
          if v.Malformed? { return None; }
          b := b[v.n..];
      }
    }
    return Some(blk);
  }

  // ----- round trips -----

  lemma TxRoundTrip(tx: Transaction)
    requires |TxBytes(tx)| <= MAX64
    ensures DecodeTx(TxBytes(tx)) == Some(tx)
  {
    FoldEncoded(TxFields(tx), EMPTY_TX, TxStep);
    var t1 := EMPTY_TX.(from := tx.from);
    var t2 := t1.(to := tx.to);
    var t3 := t2.(nonce := tx.nonce);
    StepsAlong(TxFields(tx), [EMPTY_TX, t1, t2, t3, t3.(payload := tx.payload), tx], TxStep);
  }

  /** Different transactions have different bytes. */
  lemma TxInjective(t: Transaction, u: Transaction)
    requires |TxBytes(t)| <= MAX64 && TxBytes(t) == TxBytes(u)
    ensures t == u
  {
    TxRoundTrip(t);
    TxRoundTrip(u);
  }

  /** The header and everything hashed with it decode to the block without signatures. */
  lemma HeaderSteps(b: Block)
    ensures Steps(HeaderFields(b), EMPTY_BLOCK, BlockStep)
         == Some(b.(transactions := [], validatorSigs := []))
  {
    SignedRoundTrip(b.timestamp);
    var b1 := EMPTY_BLOCK.(height := b.height);
    var b2 := b1.(prevHash := b.prevHash);
    var b3 := b2.(stateRoot := b.stateRoot);
    var b4 := b3.(timestamp := b.timestamp);
    StepsAlong(HeaderFields(b), [EMPTY_BLOCK, b1, b2, b3, b4, b4.(proposer := b.proposer)], BlockStep);
  }

  lemma TxListStep(blk: Block, txs: seq<Transaction>, k: nat)
    requires k < |txs| && |TxBytes(txs[k])| <= MAX64
    ensures BlockStep(blk.(transactions := txs[..k]), Field(6, Chunk(TxBytes(txs[k]))))
         == Some(blk.(transactions := txs[..k + 1]))
  {
    hide TxBytes, DecodeTx;
    TxRoundTrip(txs[k]);
    assert txs[..k + 1] == txs[..k] + [txs[k]];
  }

  lemma TxListSteps(txs: seq<Transaction>, blk: Block)
    requires blk.transactions == [] && forall tx :: tx in txs ==> |TxBytes(tx)| <= MAX64
    ensures Steps(TxListFields(txs), blk, BlockStep) == Some(blk.(transactions := txs))
  {
    var states := seq(|txs| + 1, k requires 0 <= k <= |txs| => blk.(transactions := txs[..k]));
    forall k | 0 <= k < |txs|
      ensures BlockStep(states[k], TxListFields(txs)[k]) == Some(states[k + 1])
    {
      TxListStep(blk, txs, k);
    }
    StepsAlong(TxListFields(txs), states, BlockStep);
    assert txs[..|txs|] == txs;
  }

  lemma SigStep(blk: Block, sigs: seq<Bytes>, k: nat)
    requires k < |sigs|
    ensures BlockStep(blk.(validatorSigs := sigs[..k]), Field(7, Chunk(sigs[k])))
         == Some(blk.(validatorSigs := sigs[..k + 1]))
  {
    assert sigs[..k + 1] == sigs[..k] + [sigs[k]];
  }

  lemma SigSteps(sigs: seq<Bytes>, blk: Block)
    requires blk.validatorSigs == []
    ensures Steps(SigFields(sigs), blk, BlockStep) == Some(blk.(validatorSigs := sigs))
  {
    var states := seq(|sigs| + 1, k requires 0 <= k <= |sigs| => blk.(validatorSigs := sigs[..k]));
    forall k | 0 <= k < |sigs|
      ensures BlockStep(states[k], SigFields(sigs)[k]) == Some(states[k + 1])
    {
      SigStep(blk, sigs, k);
    }
    StepsAlong(SigFields(sigs), states, BlockStep);
    assert sigs[..|sigs|] == sigs;
  }

  lemma TxsWithin(b: Block)
    requires |BlockBytesForHash(b)| <= MAX64
    ensures forall tx :: tx in b.transactions ==> |TxBytes(tx)| <= MAX64
  {
    hide Encode, EncodeField, TxBytes;
    var fs := HeaderFields(b) + TxListFields(b.transactions);
    forall tx | tx in b.transactions
      ensures |TxBytes(tx)| <= MAX64
    {
      var i :| 0 <= i < |b.transactions| && b.transactions[i] == tx;
      assert fs[5 + i] == Field(6, Chunk(TxBytes(tx)));
      FieldWithinEncoding(fs, 5 + i);
      ChunkWithinField(6, TxBytes(tx));
    }
  }

  lemma ChunkWithinField(num: nat, c: Bytes)
    requires 1 <= num <= MAX_INT32
    ensures |c| <= |EncodeField(Field(num, Chunk(c)))|
  {
  }

  lemma UnsignedSteps(b: Block)
    requires |BlockBytesForHash(b)| <= MAX64
    ensures Steps(HeaderFields(b) + TxListFields(b.transactions), EMPTY_BLOCK, BlockStep)
         == Some(b.(validatorSigs := []))
  {
    var bare := b.(validatorSigs := []);
    var header := bare.(transactions := []);
    TxsWithin(b);
    HeaderSteps(b);
    TxListSteps(b.transactions, header);
    StepsTwoRuns(HeaderFields(b), TxListFields(b.transactions), EMPTY_BLOCK, BlockStep, header, bare);
  }

  /** What is hashed decodes to the block itself, signatures dropped. */
  lemma HashedBytesDecode(b: Block)
    requires |BlockBytesForHash(b)| <= MAX64
    ensures DecodeBlock(BlockBytesForHash(b)) == Some(b.(validatorSigs := []))
  {
    UnsignedSteps(b);
    FoldEncoded(HeaderFields(b) + TxListFields(b.transactions), EMPTY_BLOCK, BlockStep);
  }

  lemma BlockRoundTrip(b: Block)
    requires |BlockBytes(b)| <= MAX64
    ensures DecodeBlock(BlockBytes(b)) == Some(b)
  {
    var bare := b.(validatorSigs := []);
    var unsigned := HeaderFields(b) + TxListFields(b.transactions);
    EncodeConcat(unsigned, SigFields(b.validatorSigs));
    UnsignedSteps(b);
    SigSteps(b.validatorSigs, bare);
    FoldTwoRuns(unsigned, SigFields(b.validatorSigs), EMPTY_BLOCK, BlockStep, bare, b);
  }

  /** The hashed bytes are equal exactly when the blocks agree on everything but the signatures. */
  lemma HashedBytesIdentify(a: Block, b: Block)
    requires |BlockBytesForHash(a)| <= MAX64
    ensures BlockBytesForHash(a) == BlockBytesForHash(b)
       <==> a.(validatorSigs := []) == b.(validatorSigs := [])
  {
    if BlockBytesForHash(a) == BlockBytesForHash(b) {
      HashedBytesDecode(a);
      HashedBytesDecode(b);
    }
    if a.(validatorSigs := []) == b.(validatorSigs := []) {
      assert HeaderFields(a) == HeaderFields(b);
    }
  }

  /** A vote is determined by its bytes, so a signature over them fixes hash, height, round and validator. */
  lemma VoteInjective(v: PrecommitVote, w: PrecommitVote)
    requires |VoteBytes(v)| <= MAX64 && VoteBytes(v) == VoteBytes(w)
    ensures v == w
  {
    EncodeInjective(VoteFields(v), VoteFields(w));
    var f, g := VoteFields(v), VoteFields(w);
    assert f[0] == g[0] && f[1] == g[1] && f[2] == g[2] && f[3] == g[3] && f[4] == g[4];
  }

  /** Votes, proposals and view changes never share their bytes, so a signature on one is no signature on another. */
  lemma KindsApart(v: PrecommitVote, p: Proposal, vc: ViewChange)
    requires |VoteBytes(v)| <= MAX64 && |ViewChangeBytes(vc)| <= MAX64
    ensures VoteBytes(v) != ProposalBytes(p) && VoteBytes(v) != ViewChangeBytes(vc)
        && ViewChangeBytes(vc) != ProposalBytes(p)
  {
    hide BlockBytes, Encode;
    var f, g, h := VoteFields(v), ProposalFields(p), ViewChangeFields(vc);
    assert f[2] != g[2] && f[0] != h[0] && h[0] != g[0];
    if VoteBytes(v) == ProposalBytes(p) {
      EncodeInjective(f, g);
    }
    if VoteBytes(v) == ViewChangeBytes(vc) {
      EncodeInjective(f, h);
    }
    if ViewChangeBytes(vc) == ProposalBytes(p) {
      EncodeInjective(h, g);
    }
  }

  // ----- repeated, misplaced and wrongly typed fields -----

  /** Wherever a field stands it sets its entry, and of two the last one counts. */
  lemma TxFieldSets(b: Bytes, t: Transaction, x: Bytes, v: uint64)
    requires Fold(b, EMPTY_TX, TxStep) == Some(t) && |x| <= MAX64 - 20
    ensures DecodeTx(b + ChunkField(0x0A, x)) == Some(t.(from := x))
    ensures DecodeTx(b + ChunkField(0x12, x)) == Some(t.(to := x))
    ensures DecodeTx(b + NumberField(0x18, v)) == Some(t.(nonce := v))
    ensures DecodeTx(b + ChunkField(0x22, x)) == Some(t.(payload := x))
    ensures DecodeTx(b + ChunkField(0x2A, x)) == Some(t.(signature := x))
  {
    hide Fold;
    FoldField(b, Field(1, Chunk(x)), EMPTY_TX, TxStep);
    FoldField(b, Field(2, Chunk(x)), EMPTY_TX, TxStep);
    FoldField(b, Field(3, Number(v)), EMPTY_TX, TxStep);
    FoldField(b, Field(4, Chunk(x)), EMPTY_TX, TxStep);
    FoldField(b, Field(5, Chunk(x)), EMPTY_TX, TxStep);
  }

  /** A known field of the wrong wire type spoils the input. */
  lemma TxRefusesType(b: Bytes, u: Bytes, rest: Bytes)
    requires IsField(u) && Fold(b, EMPTY_TX, TxStep).Some?
    requires var f := ParseField(u).value;
      (f.num in {1, 2, 4, 5} && !f.value.Chunk?) || (f.num == 3 && !f.value.Number?)
    ensures DecodeTx(b + u + rest) == None
  {
    hide Fold;
    FoldRefuses(b, u, rest, EMPTY_TX, TxStep);
  }

  /** The same for a block: hashes of 32 bytes, and transactions and signatures one more each. */
  lemma BlockFieldSets(b: Bytes, blk: Block, x: Bytes, v: uint64)
    requires Fold(b, EMPTY_BLOCK, BlockStep) == Some(blk) && |x| <= MAX64 - 20
    ensures DecodeBlock(b + NumberField(0x08, v)) == Some(blk.(height := v))
    ensures DecodeBlock(b + ChunkField(0x12, x)) == if |x| == 32 then Some(blk.(prevHash := x)) else None
    ensures DecodeBlock(b + ChunkField(0x1A, x)) == if |x| == 32 then Some(blk.(stateRoot := x)) else None
    ensures DecodeBlock(b + NumberField(0x20, v))
         == Some(blk.(timestamp := if v < 0x8000_0000_0000_0000 then v else v - 0x1_0000_0000_0000_0000))
    ensures DecodeBlock(b + ChunkField(0x2A, x)) == Some(blk.(proposer := x))
    ensures DecodeBlock(b + ChunkField(0x32, x))
         == if DecodeTx(x).Some? then Some(blk.(transactions := blk.transactions + [DecodeTx(x).value])) else None
    ensures DecodeBlock(b + ChunkField(0x3A, x)) == Some(blk.(validatorSigs := blk.validatorSigs + [x]))
  {
    hide Fold, DecodeTx;
    FoldField(b, Field(1, Number(v)), EMPTY_BLOCK, BlockStep);
    FoldField(b, Field(2, Chunk(x)), EMPTY_BLOCK, BlockStep);
    FoldField(b, Field(3, Chunk(x)), EMPTY_BLOCK, BlockStep);
    FoldField(b, Field(4, Number(v)), EMPTY_BLOCK, BlockStep);
    FoldField(b, Field(5, Chunk(x)), EMPTY_BLOCK, BlockStep);
    FoldField(b, Field(6, Chunk(x)), EMPTY_BLOCK, BlockStep);
    FoldField(b, Field(7, Chunk(x)), EMPTY_BLOCK, BlockStep);
  }

  lemma BlockRefusesType(b: Bytes, u: Bytes, rest: Bytes)
    requires IsField(u) && Fold(b, EMPTY_BLOCK, BlockStep).Some?
    requires var f := ParseField(u).value;
      (f.num in {2, 3, 5, 6, 7} && !f.value.Chunk?) || (f.num in {1, 4} && !f.value.Number?)
    ensures DecodeBlock(b + u + rest) == None
  {
    hide Fold, DecodeTx;
    FoldRefuses(b, u, rest, EMPTY_BLOCK, BlockStep);
  }

  // ----- unknown fields -----

  /** A field with a number a transaction does not use changes nothing, wherever it stands. */
  lemma TxIgnoresUnknown(b: Bytes, u: Bytes, rest: Bytes)
    requires IsField(u) && ParseField(u).value.num > 5
    requires Fold(b, EMPTY_TX, TxStep).Some? && |b + rest| > 0
    ensures DecodeTx(b + u + rest) == DecodeTx(b + rest)
  {
    FoldIgnores(b, u, rest, EMPTY_TX, TxStep);
  }

  lemma BlockIgnoresUnknown(b: Bytes, u: Bytes, rest: Bytes)
    requires IsField(u) && ParseField(u).value.num > 7
    requires Fold(b, EMPTY_BLOCK, BlockStep).Some? && |b + rest| > 0
    ensures DecodeBlock(b + u + rest) == DecodeBlock(b + rest)
  {
    FoldIgnores(b, u, rest, EMPTY_BLOCK, BlockStep);
  }
}
