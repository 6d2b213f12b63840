/** Account records as stored bytes (pkg/state/codec.go). */
module AccountCodec {
  import opened Wrappers
  import opened Machine
  import opened Types
  import opened Wire

  function FixedFields(a: Account): seq<Printed> {
    [Field(1, Chunk(a.address)), Field(2, Number(a.balance)), Field(3, Number(a.nonce)),
     Field(4, Number(a.stake)), Field(5, Number(a.rc)), Field(6, Number(a.rcMax)),
     Field(7, Number(ToUnsigned(a.lastTime)))]
  }

  /** A byte field that is printed only when it is not empty. */
  function OptionalField(num: nat, b: Bytes): seq<Printed>
    requires 1 <= num <= MAX_INT32
  {
    if |b| > 0 then [Field(num, Chunk(b))] else []
  }

  function AccountFields(a: Account): seq<Printed> {
    FixedFields(a) + OptionalField(8, a.code) + OptionalField(9, a.pubKey)
  }

  function AccountBytes(a: Account): Bytes { Encode(AccountFields(a)) }

  const EMPTY_ACCOUNT := ZeroAccount([])

  function AccountStep(a: Account, f: Field): Option<Account> {
    match f.num
    case 1 => if f.value.Chunk? then Some(a.(address := f.value.b)) else None
    case 2 => if f.value.Number? then Some(a.(balance := f.value.v)) else None
    case 3 => if f.value.Number? then Some(a.(nonce := f.value.v)) else None
    case 4 => if f.value.Number? then Some(a.(stake := f.value.v)) else None
    case 5 => if f.value.Number? then Some(a.(rc := f.value.v)) else None
    case 6 => if f.value.Number? then Some(a.(rcMax := f.value.v)) else None
    case 7 => if f.value.Number? then Some(a.(lastTime := ToSigned(f.value.v))) else None
    case 8 => if f.value.Chunk? then Some(a.(code := f.value.b)) else None
    case 9 => if f.value.Chunk? then Some(a.(pubKey := f.value.b)) else None
    case _ => Some(a)
  }

  function DecodeAccount(b: Bytes): Option<Account> { Fold(b, EMPTY_ACCOUNT, AccountStep) }

  lemma FieldsInOrder(a: Account)
    ensures var fs, last := AccountFields(a), |AccountFields(a)| - 1;
      && FixedFields(a) == fs[..7]
      && |fs| == 7 + (if |a.code| > 0 then 1 else 0) + (if |a.pubKey| > 0 then 1 else 0)
      && (|a.code| > 0 ==> fs[7] == Field(8, Chunk(a.code)))
      && (|a.pubKey| > 0 ==> fs[last] == Field(9, Chunk(a.pubKey)))
  {
  }

  lemma FixedLayout(a: Account)
    ensures Encode(FixedFields(a))
         == ChunkField(0x0A, a.address) + NumberField(0x10, a.balance) + NumberField(0x18, a.nonce)
            + NumberField(0x20, a.stake) + NumberField(0x28, a.rc) + NumberField(0x30, a.rcMax)
            + NumberField(0x38, a.lastTime % TWO64)
  {
    hide Encode, EncodeField, NumberField, ChunkField;
    var fs := FixedFields(a);
    EncodePrefixes(fs);
    FieldLayout(fs[0]);
    FieldLayout(fs[1]);
    FieldLayout(fs[2]);
    FieldLayout(fs[3]);
    FieldLayout(fs[4]);
    FieldLayout(fs[5]);
    FieldLayout(fs[6]);
  }

  lemma OptionalLayout(num: nat, b: Bytes)
    requires 1 <= num < 16
    ensures Encode(OptionalField(num, b)) == (if |b| > 0 then ChunkField(num * 8 + 2, b) else [])
  {
    if |b| > 0 {
      FieldLayout(Field(num, Chunk(b)));
      EncodePrefixes(OptionalField(num, b));
    }
  }

  /** The stored record byte by byte. */
  lemma AccountLayout(a: Account)
    ensures AccountBytes(a)
         == ChunkField(0x0A, a.address) + NumberField(0x10, a.balance) + NumberField(0x18, a.nonce)
            + NumberField(0x20, a.stake) + NumberField(0x28, a.rc) + NumberField(0x30, a.rcMax)
            + NumberField(0x38, a.lastTime % TWO64)
            + (if |a.code| > 0 then ChunkField(0x42, a.code) else [])
            + (if |a.pubKey| > 0 then ChunkField(0x4A, a.pubKey) else [])
  {
    hide Encode, NumberField, ChunkField, FixedFields, OptionalField;
    FixedLayout(a);
    OptionalLayout(8, a.code);
    OptionalLayout(9, a.pubKey);
    EncodeConcat(FixedFields(a), OptionalField(8, a.code));
    EncodeConcat(FixedFields(a) + OptionalField(8, a.code), OptionalField(9, a.pubKey));
  }

  method MarshalAccount(a: Account) returns (b: Bytes)
    ensures b == AccountBytes(a)
  {
    hide AccountFields, Encode, EncodeField, AppendTag, AppendVarint, AppendBytes, ToUnsigned;
    var fs := AccountFields(a);
    FieldsInOrder(a);
    EncodePrefixes(fs);
    b := [];
    AppendField(b, fs[0]);
    b := AppendTag(b, 1, BYTES);
    b := AppendBytes(b, a.address);
    AppendField(b, fs[1]);
    b := AppendTag(b, 2, VARINT);
    b := AppendVarint(b, a.balance);
    AppendField(b, fs[2]);
    b := AppendTag(b, 3, VARINT);
    b := AppendVarint(b, a.nonce);
    AppendField(b, fs[3]);
    b := AppendTag(b, 4, VARINT);
    b := AppendVarint(b, a.stake);
    AppendField(b, fs[4]);
    b := AppendTag(b, 5, VARINT);
    b := AppendVarint(b, a.rc);
    AppendField(b, fs[5]);
    b := AppendTag(b, 6, VARINT);
    b := AppendVarint(b, a.rcMax);
    AppendField(b, fs[6]);
    b := AppendTag(b, 7, VARINT);
    b := AppendVarint(b, ToUnsigned(a.lastTime));
    assert b == Encode(fs[..7]);
    if |a.code| > 0 {
      AppendField(b, fs[7]);
      b := AppendTag(b, 8, BYTES);
      b := AppendBytes(b, a.code);
    }
    if |a.pubKey| > 0 {
      AppendField(b, fs[|fs| - 1]);
      b := AppendTag(b, 9, BYTES);
      b := AppendBytes(b, a.pubKey);
    }
  }

  method UnmarshalAccount(bytes: Bytes) returns (r: Option<Account>)
    ensures r == DecodeAccount(bytes)
  {
    var b, a := bytes, EMPTY_ACCOUNT;
    while |b| > 0
      invariant Fold(bytes, EMPTY_ACCOUNT, AccountStep) == Fold(b, a, AccountStep)
      decreases |b|
    {
      var tag := ConsumeTag(b);
      if tag.Malformed? {
        return None;
      }
      match tag.value.num {
        case 1 =>
          var v := TakeBytes(b, tag);
          if v.Malformed? { return None; }
          a := a.(address := v.value);
          b := b[v.n..];
        case 2 =>
          var v := TakeVarint(b, tag);
          if v.Malformed? { return None; }
          a := a.(balance := v.value);
          b := b[v.n..];
        case 3 =>
          var v := TakeVarint(b, tag);
          if v.Malformed? { return None; }
          a := a.(nonce := v.value);
          b := b[v.n..];
        case 4 =>
          var v := TakeVarint(b, tag);
          if v.Malformed? { return None; }
          a := a.(stake := v.value);
          b := b[v.n..];
        case 5 =>
          var v := TakeVarint(b, tag);
          if v.Malformed? { return None; }
          a := a.(rc := v.value);
          b := b[v.n..];
        case 6 =>
          var v := TakeVarint(b, tag);
          if v.Malformed? { return None; }
          a := a.(rcMax := v.value);
          b := b[v.n..];
        case 7 =>
          var v := TakeVarint(b, tag);
          if v.Malformed? { return None; }
          a := a.(lastTime := ToSigned(v.value));
          b := b[v.n..];
        case 8 =>
          var v := TakeBytes(b, tag);
          if v.Malformed? { return None; }
          a := a.(code := v.value);
          b := b[v.n..];
        case 9 =>
          var v := TakeBytes(b, tag);
          if v.Malformed? { return None; }
          a := a.(pubKey := v.value);
          b := b[v.n..];
        case _ =>
          var v := SkipField(b, tag);
          if v.Malformed? { return None; }
          b := b[v.n..];
      }
    }
    return Some(a);
  }

  lemma FixedSteps(a: Account)
    ensures Steps(FixedFields(a), EMPTY_ACCOUNT, AccountStep) == Some(a.(code := [], pubKey := []))
  {
    SignedRoundTrip(a.lastTime);
    var a1 := EMPTY_ACCOUNT.(address := a.address);
    var a2 := a1.(balance := a.balance);
    var a3 := a2.(nonce := a.nonce);
    var a4 := a3.(stake := a.stake);
    var a5 := a4.(rc := a.rc);
    var a6 := a5.(rcMax := a.rcMax);
    StepsAlong(FixedFields(a), [EMPTY_ACCOUNT, a1, a2, a3, a4, a5, a6, a6.(lastTime := a.lastTime)], AccountStep);
  }

  lemma OptionalSteps(a: Account)
    ensures Steps(OptionalField(8, a.code), a.(code := [], pubKey := []), AccountStep) == Some(a.(pubKey := []))
    ensures Steps(OptionalField(9, a.pubKey), a.(pubKey := []), AccountStep) == Some(a)
  {
    if |a.code| > 0 {
      StepsAlong(OptionalField(8, a.code), [a.(code := [], pubKey := []), a.(pubKey := [])], AccountStep);
    }
    if |a.pubKey| > 0 {
      StepsAlong(OptionalField(9, a.pubKey), [a.(pubKey := []), a], AccountStep);
    }
  }

  lemma AccountRoundTrip(a: Account)
    requires |AccountBytes(a)| <= MAX64
    ensures DecodeAccount(AccountBytes(a)) == Some(a)
  {
    FixedSteps(a);
    OptionalSteps(a);
    StepsTwoRuns(FixedFields(a), OptionalField(8, a.code), EMPTY_ACCOUNT, AccountStep,
      a.(code := [], pubKey := []), a.(pubKey := []));
    FoldTwoRuns(FixedFields(a) + OptionalField(8, a.code), OptionalField(9, a.pubKey),
      EMPTY_ACCOUNT, AccountStep, a.(pubKey := []), a);
  }

  lemma AccountInjective(a: Account, b: Account)
    requires |AccountBytes(a)| <= MAX64 && AccountBytes(a) == AccountBytes(b)
    ensures a == b
  {
    AccountRoundTrip(a);
    AccountRoundTrip(b);
  }

  /** Wherever a field stands it sets its entry, and of two the last one counts. */
  lemma AccountFieldSets(b: Bytes, a: Account, x: Bytes, v: uint64)
    requires DecodeAccount(b) == Some(a) && |x| <= MAX64 - 20
    ensures DecodeAccount(b + ChunkField(0x0A, x)) == Some(a.(address := x))
    ensures DecodeAccount(b + NumberField(0x10, v)) == Some(a.(balance := v))
    ensures DecodeAccount(b + NumberField(0x18, v)) == Some(a.(nonce := v))
    ensures DecodeAccount(b + NumberField(0x20, v)) == Some(a.(stake := v))
    ensures DecodeAccount(b + NumberField(0x28, v)) == Some(a.(rc := v))
    ensures DecodeAccount(b + NumberField(0x30, v)) == Some(a.(rcMax := v))
    ensures DecodeAccount(b + NumberField(0x38, v))
         == Some(a.(lastTime := if v < 0x8000_0000_0000_0000 then v else v - 0x1_0000_0000_0000_0000))
    ensures DecodeAccount(b + ChunkField(0x42, x)) == Some(a.(code := x))
    ensures DecodeAccount(b + ChunkField(0x4A, x)) == Some(a.(pubKey := x))
  {
    hide Fold;
    FoldField(b, Field(1, Chunk(x)), EMPTY_ACCOUNT, AccountStep);
    FoldField(b, Field(2, Number(v)), EMPTY_ACCOUNT, AccountStep);
    FoldField(b, Field(3, Number(v)), EMPTY_ACCOUNT, AccountStep);
    FoldField(b, Field(4, Number(v)), EMPTY_ACCOUNT, AccountStep);
    FoldField(b, Field(5, Number(v)), EMPTY_ACCOUNT, AccountStep);
    FoldField(b, Field(6, Number(v)), EMPTY_ACCOUNT, AccountStep);
    FoldField(b, Field(7, Number(v)), EMPTY_ACCOUNT, AccountStep);
    FoldField(b, Field(8, Chunk(x)), EMPTY_ACCOUNT, AccountStep);
    FoldField(b, Field(9, Chunk(x)), EMPTY_ACCOUNT, AccountStep);
  }

  /** A known field of the wrong wire type spoils the input. */
  lemma AccountRefusesType(b: Bytes, u: Bytes, rest: Bytes)
    requires IsField(u) && DecodeAccount(b).Some?
    requires var f := ParseField(u).value;
      (f.num in {1, 8, 9} && !f.value.Chunk?) || (2 <= f.num <= 7 && !f.value.Number?)
    ensures DecodeAccount(b + u + rest) == None
  {
    hide Fold;
    FoldRefuses(b, u, rest, EMPTY_ACCOUNT, AccountStep);
  }

  lemma AccountIgnoresUnknown(b: Bytes, u: Bytes, rest: Bytes)
    requires IsField(u) && ParseField(u).value.num > 9
    requires DecodeAccount(b).Some?
    ensures DecodeAccount(b + u + rest) == DecodeAccount(b + rest)
  {
    FoldIgnores(b, u, rest, EMPTY_ACCOUNT, AccountStep);
  }
}
