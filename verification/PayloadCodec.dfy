/** Transaction payloads: one of seven variants and an optional sender key (pkg/tx/payload_encoding.go). */
module PayloadCodec {
  import opened Wrappers
  import opened Machine
  import opened Types
  import opened Wire

  /** The field of the envelope each variant travels in. */
  function VariantNumber(p: Payload): (k: nat)
    ensures 1 <= k <= 7
  {
    match p
    case Transfer(_, _) => 1
    case StakeDelegate(_, _) => 2
    case StakeUndelegate(_, _) => 3
    case ContractDeploy(_, _) => 4
    case ContractCall(_, _, _) => 5
    case GovernanceProposal(_, _, _, _) => 6
    case GovernanceVote(_, _) => 7
  }

  /** The zero value a decoder of variant k starts from. */
  function ZeroPayload(k: nat): (p: Payload)
    requires 1 <= k <= 7
    ensures VariantNumber(p) == k
  {
    match k
    case 1 => Transfer([], 0)
    case 2 => StakeDelegate([], 0)
    case 3 => StakeUndelegate([], 0)
    case 4 => ContractDeploy([], [])
    case 5 => ContractCall([], [], [])
    case 6 => GovernanceProposal([], [], [], [])
    case _ => GovernanceVote(0, 0)
  }

  function ArgFields(args: seq<Bytes>): (fs: seq<Printed>)
    ensures |fs| == |args| && forall i :: 0 <= i < |args| ==> fs[i] == Field(3, Chunk(args[i]))
  {
    seq(|args|, i requires 0 <= i < |args| => Field(3, Chunk(args[i])))
  }

  function InnerFields(p: Payload): seq<Printed> {
    match p
    case Transfer(to, amount) => [Field(1, Chunk(to)), Field(2, Number(amount))]
    case StakeDelegate(validator, amount) => [Field(1, Chunk(validator)), Field(2, Number(amount))]
    case StakeUndelegate(validator, amount) => [Field(1, Chunk(validator)), Field(2, Number(amount))]
    case ContractDeploy(code, salt) => [Field(1, Chunk(code)), Field(2, Chunk(salt))]
    case ContractCall(contract, entry, args) => [Field(1, Chunk(contract)), Field(2, Chunk(entry))] + ArgFields(args)
    case GovernanceProposal(title, description, key, value) =>
      [Field(1, Chunk(title)), Field(2, Chunk(description)), Field(3, Chunk(key)), Field(4, Chunk(value))]
    case GovernanceVote(id, option) => [Field(1, Number(id)), Field(2, Number(option))]
  }

  function InnerBytes(p: Payload): Bytes { Encode(InnerFields(p)) }

  function EnvelopeFields(p: Payload, key: Bytes): seq<Printed> {
    [Field(VariantNumber(p), Chunk(InnerBytes(p)))] + (if |key| > 0 then [Field(8, Chunk(key))] else [])
  }

  function PayloadBytes(p: Payload, key: Bytes): Bytes { Encode(EnvelopeFields(p, key)) }

  /** Each variant byte by byte. */
  lemma InnerLayout(p: Payload)
    ensures InnerBytes(p)
         == match p {
              case Transfer(to, amount) => ChunkField(0x0A, to) + NumberField(0x10, amount)
              case StakeDelegate(validator, amount) => ChunkField(0x0A, validator) + NumberField(0x10, amount)
              case StakeUndelegate(validator, amount) => ChunkField(0x0A, validator) + NumberField(0x10, amount)
              case ContractDeploy(code, salt) => ChunkField(0x0A, code) + ChunkField(0x12, salt)
              case ContractCall(contract, entry, args) =>
                ChunkField(0x0A, contract) + ChunkField(0x12, entry)
                + Joined(seq(|args|, i requires 0 <= i < |args| => ChunkField(0x1A, args[i])))
              case GovernanceProposal(title, description, key, value) =>
                ChunkField(0x0A, title) + ChunkField(0x12, description) + ChunkField(0x1A, key)
                + ChunkField(0x22, value)
              case GovernanceVote(id, option) => NumberField(0x08, id) + NumberField(0x10, option)
            }
  {
    hide Encode, EncodeField, Joined, NumberField, ChunkField;
    var head := if p.ContractCall? then [Field(1, Chunk(p.contract)), Field(2, Chunk(p.entry))] else InnerFields(p);
    EncodePrefixes(head);
    FieldLayout(head[0]);
    FieldLayout(head[1]);
    if p.GovernanceProposal? {
      FieldLayout(head[2]);
      FieldLayout(head[3]);
    }
    if p.ContractCall? {
      var args := p.args;
      var parts := seq(|args|, i requires 0 <= i < |args| => ChunkField(0x1A, args[i]));
      forall i | 0 <= i < |args|
        ensures parts[i] == EncodeField(ArgFields(args)[i])
      {
        FieldLayout(ArgFields(args)[i]);
      }
      EncodeParts(ArgFields(args), parts);
      EncodeConcat(head, ArgFields(args));
    }
  }

  /** The envelope byte by byte: the variant under the key byte of its number, then the key if there is one. */
  lemma PayloadLayout(p: Payload, key: Bytes)
    ensures var tag := match p {
                case Transfer(_, _) => 0x0A
                case StakeDelegate(_, _) => 0x12
                case StakeUndelegate(_, _) => 0x1A
                case ContractDeploy(_, _) => 0x22
                case ContractCall(_, _, _) => 0x2A
                case GovernanceProposal(_, _, _, _) => 0x32
                case GovernanceVote(_, _) => 0x3A
              };
      PayloadBytes(p, key)
        == ChunkField(tag, InnerBytes(p)) + (if |key| > 0 then ChunkField(0x42, key) else [])
  {
    hide Encode, EncodeField, NumberField, ChunkField, InnerBytes;
    var fs := EnvelopeFields(p, key);
    EncodePrefixes(fs);
    FieldLayout(fs[0]);
    if |key| > 0 {
      FieldLayout(fs[1]);
    }
  }

  // ----- what a decoder does with one field -----

  function TransferStep(p: Payload, f: Field): Option<Payload>
    requires p.Transfer?
  {
    match f.num
    case 1 => if f.value.Chunk? then Some(Transfer(f.value.b, p.amount)) else None
    case 2 => if f.value.Number? then Some(Transfer(p.to, f.value.v)) else None
    case _ => Some(p)
  }

  function StakeDelegateStep(p: Payload, f: Field): Option<Payload>
    requires p.StakeDelegate?
  {
    match f.num
    case 1 => if f.value.Chunk? then Some(StakeDelegate(f.value.b, p.amount)) else None
    case 2 => if f.value.Number? then Some(StakeDelegate(p.validator, f.value.v)) else None
    case _ => Some(p)
  }

  function StakeUndelegateStep(p: Payload, f: Field): Option<Payload>
    requires p.StakeUndelegate?
  {
    match f.num
    case 1 => if f.value.Chunk? then Some(StakeUndelegate(f.value.b, p.amount)) else None
    case 2 => if f.value.Number? then Some(StakeUndelegate(p.validator, f.value.v)) else None
    case _ => Some(p)
  }

  function ContractDeployStep(p: Payload, f: Field): Option<Payload>
    requires p.ContractDeploy?
  {
    match f.num
    case 1 => if f.value.Chunk? then Some(p.(wasmCode := f.value.b)) else None
    case 2 => if f.value.Chunk? then Some(p.(salt := f.value.b)) else None
    case _ => Some(p)
  }

  function ContractCallStep(p: Payload, f: Field): Option<Payload>
    requires p.ContractCall?
  {
    match f.num
    case 1 => if f.value.Chunk? then Some(p.(contract := f.value.b)) else None
    case 2 => if f.value.Chunk? then Some(p.(entry := f.value.b)) else None
    case 3 => if f.value.Chunk? then Some(p.(args := p.args + [f.value.b])) else None
    case _ => Some(p)
  }

  function GovernanceProposalStep(p: Payload, f: Field): Option<Payload>
    requires p.GovernanceProposal?
  {
    match f.num
    case 1 => if f.value.Chunk? then Some(p.(title := f.value.b)) else None
    case 2 => if f.value.Chunk? then Some(p.(description := f.value.b)) else None
    case 3 => if f.value.Chunk? then Some(p.(paramKey := f.value.b)) else None
    case 4 => if f.value.Chunk? then Some(p.(paramValue := f.value.b)) else None
    case _ => Some(p)
  }

  function GovernanceVoteStep(p: Payload, f: Field): Option<Payload>
    requires p.GovernanceVote?
  {
    match f.num
    case 1 => if f.value.Number? then Some(p.(proposalId := f.value.v)) else None
    case 2 => if f.value.Number? then Some(p.(option := f.value.v % 256)) else None
    case _ => Some(p)
  }

  function InnerStep(p: Payload, f: Field): (r: Option<Payload>)
    ensures r.Some? ==> VariantNumber(r.value) == VariantNumber(p)
  {
    match p
    case Transfer(_, _) => TransferStep(p, f)
    case StakeDelegate(_, _) => StakeDelegateStep(p, f)
    case StakeUndelegate(_, _) => StakeUndelegateStep(p, f)
    case ContractDeploy(_, _) => ContractDeployStep(p, f)
    case ContractCall(_, _, _) => ContractCallStep(p, f)
    case GovernanceProposal(_, _, _, _) => GovernanceProposalStep(p, f)
    case GovernanceVote(_, _) => GovernanceVoteStep(p, f)
  }

  function DecodeInner(k: nat, b: Bytes): Option<Payload>
    requires 1 <= k <= 7
  {
    Fold(b, ZeroPayload(k), InnerStep)
  }

  /** The envelope while it is being read: the payload may still be missing. */
  datatype Partial = Partial(payload: Option<Payload>, key: Bytes)

  function EnvelopeStep(d: Partial, f: Field): Option<Partial> {
    if 1 <= f.num <= 7 then
      if !f.value.Chunk? || d.payload.Some? then None
      else
        match DecodeInner(f.num, f.value.b)
        case None => None
        case Some(p) => Some(d.(payload := Some(p)))
    else if f.num == 8 then
      if !f.value.Chunk? || |d.key| > 0 then None else Some(d.(key := f.value.b))
    else Some(d)
  }

  function Finish(d: Option<Partial>): Option<PayloadEnvelope> {
    if d.None? || d.value.payload.None? then None
    else Some(PayloadEnvelope(d.value.payload.value, d.value.key))
  }

  function DecodePayload(b: Bytes): Option<PayloadEnvelope> {
    if |b| == 0 then None else Finish(Fold(b, Partial(None, []), EnvelopeStep))
  }

  // ----- the encoders -----

  method EncodeTransfer(p: Payload) returns (out: Bytes)
    requires p.Transfer?
    ensures out == EncodeField(Field(1, Chunk(InnerBytes(p))))
  {
    var fs := InnerFields(p);
    EncodePrefixes(fs);
    var inner := [];
    AppendField(inner, fs[0]);
    inner := AppendTag(inner, 1, BYTES);
    inner := AppendBytes(inner, p.to);
    AppendField(inner, fs[1]);
    inner := AppendTag(inner, 2, VARINT);
    inner := AppendVarint(inner, p.amount);
    AppendField([], Field(1, Chunk(inner)));
    out := AppendTag([], 1, BYTES);
    out := AppendBytes(out, inner);
  }

  method EncodeStakeDelegate(p: Payload) returns (out: Bytes)
    requires p.StakeDelegate?
    ensures out == EncodeField(Field(2, Chunk(InnerBytes(p))))
  {
    var fs := InnerFields(p);
    EncodePrefixes(fs);
    var inner := [];
    AppendField(inner, fs[0]);
    inner := AppendTag(inner, 1, BYTES);
    inner := AppendBytes(inner, p.validator);
    AppendField(inner, fs[1]);
    inner := AppendTag(inner, 2, VARINT);
    inner := AppendVarint(inner, p.amount);
    AppendField([], Field(2, Chunk(inner)));
    out := AppendTag([], 2, BYTES);
    out := AppendBytes(out, inner);
  }

  method EncodeStakeUndelegate(p: Payload) returns (out: Bytes)
    requires p.StakeUndelegate?
    ensures out == EncodeField(Field(3, Chunk(InnerBytes(p))))
  {
    var fs := InnerFields(p);
    EncodePrefixes(fs);
    var inner := [];
    AppendField(inner, fs[0]);
    inner := AppendTag(inner, 1, BYTES);
    inner := AppendBytes(inner, p.validator);
    AppendField(inner, fs[1]);
    inner := AppendTag(inner, 2, VARINT);
    inner := AppendVarint(inner, p.amount);
    AppendField([], Field(3, Chunk(inner)));
    out := AppendTag([], 3, BYTES);
    out := AppendBytes(out, inner);
  }

  method EncodeContractDeploy(p: Payload) returns (out: Bytes)
    requires p.ContractDeploy?
    ensures out == EncodeField(Field(4, Chunk(InnerBytes(p))))
  {
    var fs := InnerFields(p);
    EncodePrefixes(fs);
    var inner := [];
    AppendField(inner, fs[0]);
    inner := AppendTag(inner, 1, BYTES);
    inner := AppendBytes(inner, p.wasmCode);
    AppendField(inner, fs[1]);
    inner := AppendTag(inner, 2, BYTES);
    inner := AppendBytes(inner, p.salt);
    AppendField([], Field(4, Chunk(inner)));
    out := AppendTag([], 4, BYTES);
    out := AppendBytes(out, inner);
  }

  method EncodeContractCall(p: Payload) returns (out: Bytes)
    requires p.ContractCall?
    ensures out == EncodeField(Field(5, Chunk(InnerBytes(p))))
  {
    var fs := InnerFields(p);
    EncodePrefixes(fs);
    var inner := [];
    AppendField(inner, fs[0]);
    inner := AppendTag(inner, 1, BYTES);
    inner := AppendBytes(inner, p.contract);
    AppendField(inner, fs[1]);
    inner := AppendTag(inner, 2, BYTES);
    inner := AppendBytes(inner, p.entry);
    for i := 0 to |p.args|
      invariant inner == Encode(fs[..2 + i])
    {
      assert fs[2 + i] == Field(3, Chunk(p.args[i]));
      AppendField(inner, fs[2 + i]);
      inner := AppendTag(inner, 3, BYTES);
      inner := AppendBytes(inner, p.args[i]);
    }
    AppendField([], Field(5, Chunk(inner)));
    out := AppendTag([], 5, BYTES);
    out := AppendBytes(out, inner);
  }

  method EncodeGovernanceProposal(p: Payload) returns (out: Bytes)
    requires p.GovernanceProposal?
    ensures out == EncodeField(Field(6, Chunk(InnerBytes(p))))
  {
    var fs := InnerFields(p);
    EncodePrefixes(fs);
    var inner := [];
    AppendField(inner, fs[0]);
    inner := AppendTag(inner, 1, BYTES);
    inner := AppendBytes(inner, p.title);
    AppendField(inner, fs[1]);
    inner := AppendTag(inner, 2, BYTES);
    inner := AppendBytes(inner, p.description);
    AppendField(inner, fs[2]);
    inner := AppendTag(inner, 3, BYTES);
    inner := AppendBytes(inner, p.paramKey);
    AppendField(inner, fs[3]);
    inner := AppendTag(inner, 4, BYTES);
    inner := AppendBytes(inner, p.paramValue);
    AppendField([], Field(6, Chunk(inner)));
    out := AppendTag([], 6, BYTES);
    out := AppendBytes(out, inner);
  }

  method EncodeGovernanceVote(p: Payload) returns (out: Bytes)
    requires p.GovernanceVote?
    ensures out == EncodeField(Field(7, Chunk(InnerBytes(p))))
  {
    var fs := InnerFields(p);
    EncodePrefixes(fs);
    var inner := [];
    AppendField(inner, fs[0]);
    inner := AppendTag(inner, 1, VARINT);
    inner := AppendVarint(inner, p.proposalId);
    AppendField(inner, fs[1]);
    inner := AppendTag(inner, 2, VARINT);
    inner := AppendVarint(inner, p.option);
    AppendField([], Field(7, Chunk(inner)));
    out := AppendTag([], 7, BYTES);
    out := AppendBytes(out, inner);
  }

  method EncodePayload(p: Payload, senderPubKey: Bytes) returns (out: Bytes)
    ensures out == PayloadBytes(p, senderPubKey)
  {
    var fs := EnvelopeFields(p, senderPubKey);
    EncodePrefixes(fs);
    match p {
      case Transfer(_, _) => out := EncodeTransfer(p);
      case StakeDelegate(_, _) => out := EncodeStakeDelegate(p);
      case StakeUndelegate(_, _) => out := EncodeStakeUndelegate(p);
      case ContractDeploy(_, _) => out := EncodeContractDeploy(p);
      case ContractCall(_, _, _) => out := EncodeContractCall(p);
      case GovernanceProposal(_, _, _, _) => out := EncodeGovernanceProposal(p);
      case GovernanceVote(_, _) => out := EncodeGovernanceVote(p);
    }
    assert out == Encode(fs[..1]);
    if |senderPubKey| > 0 {
      AppendField(out, fs[1]);
      out := AppendTag(out, 8, BYTES);
      out := AppendBytes(out, senderPubKey);
    }
  }

  // ----- the decoders -----

  method DecodeTransfer(bytes: Bytes) returns (r: Option<Payload>)
    ensures r == DecodeInner(1, bytes)
  {
    var b, p := bytes, ZeroPayload(1);
    while |b| > 0
      invariant p.Transfer?
      invariant Fold(bytes, ZeroPayload(1), InnerStep) == Fold(b, p, InnerStep)
      decreases |b|
    {
      var tag := ConsumeTag(b);
      if tag.Malformed? { return None; }
      match tag.value.num {
        case 1 =>
          var v := TakeBytes(b, tag);
          if v.Malformed? { return None; }
          p := Transfer(v.value, p.amount);
          b := b[v.n..];
        case 2 =>
          var v := TakeVarint(b, tag);
          if v.Malformed? { return None; }
          p := Transfer(p.to, v.value);
          b := b[v.n..];
        case _ =>
          var v := SkipField(b, tag);
          if v.Malformed? { return None; }
          b := b[v.n..];
      }
    }
    return Some(p);
  }

  method DecodeStakeDelegate(bytes: Bytes) returns (r: Option<Payload>)
    ensures r == DecodeInner(2, bytes)
  {
    var b, p := bytes, ZeroPayload(2);
    while |b| > 0
      invariant p.StakeDelegate?
      invariant Fold(bytes, ZeroPayload(2), InnerStep) == Fold(b, p, InnerStep)
      decreases |b|
    {
      var tag := ConsumeTag(b);
      if tag.Malformed? { return None; }
      match tag.value.num {
        case 1 =>
          var v := TakeBytes(b, tag);
          if v.Malformed? { return None; }
          p := StakeDelegate(v.value, p.amount);
          b := b[v.n..];
        case 2 =>
          var v := TakeVarint(b, tag);
          if v.Malformed? { return None; }
          p := StakeDelegate(p.validator, v.value);
          b := b[v.n..];
        case _ =>
          var v := SkipField(b, tag);
          if v.Malformed? { return None; }
          b := b[v.n..];
      }
    }
    return Some(p);
  }

  method DecodeStakeUndelegate(bytes: Bytes) returns (r: Option<Payload>)
    ensures r == DecodeInner(3, bytes)
  {
    var b, p := bytes, ZeroPayload(3);
    while |b| > 0
      invariant p.StakeUndelegate?
      invariant Fold(bytes, ZeroPayload(3), InnerStep) == Fold(b, p, InnerStep)
      decreases |b|
    {
      var tag := ConsumeTag(b);
      if tag.Malformed? { return None; }
      match tag.value.num {
        case 1 =>
          var v := TakeBytes(b, tag);
          if v.Malformed? { return None; }
          p := StakeUndelegate(v.value, p.amount);
          b := b[v.n..];
        case 2 =>
          var v := TakeVarint(b, tag);
          if v.Malformed? { return None; }
          p := StakeUndelegate(p.validator, v.value);
          b := b[v.n..];
        case _ =>
          var v := SkipField(b, tag);
          if v.Malformed? { return None; }
          b := b[v.n..];
      }
    }
    return Some(p);
  }

  method DecodeContractDeploy(bytes: Bytes) returns (r: Option<Payload>)
    ensures r == DecodeInner(4, bytes)
  {
    var b, p := bytes, ZeroPayload(4);
    while |b| > 0
      invariant p.ContractDeploy?
      invariant Fold(bytes, ZeroPayload(4), InnerStep) == Fold(b, p, InnerStep)
      decreases |b|
    {
      var tag := ConsumeTag(b);
      if tag.Malformed? { return None; }
      match tag.value.num {
        case 1 =>
          var v := TakeBytes(b, tag);
          if v.Malformed? { return None; }
          p := p.(wasmCode := v.value);
          b := b[v.n..];
        case 2 =>
          var v := TakeBytes(b, tag);
          if v.Malformed? { return None; }
          p := p.(salt := v.value);
          b := b[v.n..];
        case _ =>
          var v := SkipField(b, tag);
          if v.Malformed? { return None; }
          b := b[v.n..];
      }
    }
    return Some(p);
  }

  method DecodeContractCall(bytes: Bytes) returns (r: Option<Payload>)
    ensures r == DecodeInner(5, bytes)
  {
    var b, p := bytes, ZeroPayload(5);
    while |b| > 0
      invariant p.ContractCall?
      invariant Fold(bytes, ZeroPayload(5), InnerStep) == Fold(b, p, InnerStep)
      decreases |b|
    {
      var tag := ConsumeTag(b);
      if tag.Malformed? { return None; }
      match tag.value.num {
        case 1 =>
          var v := TakeBytes(b, tag);
          if v.Malformed? { return None; }
          p := p.(contract := v.value);
          b := b[v.n..];
        case 2 =>
          var v := TakeBytes(b, tag);
          if v.Malformed? { return None; }
          p := p.(entry := v.value);
          b := b[v.n..];
        case 3 =>
          var v := TakeBytes(b, tag);
          if v.Malformed? { return None; }
          p := p.(args := p.args + [v.value]);
          b := b[v.n..];
        case _ =>
          var v := SkipField(b, tag);
          if v.Malformed? { return None; }
          b := b[v.n..];
      }
    }
    return Some(p);
  }

  method DecodeGovernanceProposal(bytes: Bytes) returns (r: Option<Payload>)
    ensures r == DecodeInner(6, bytes)
  {
    var b, p := bytes, ZeroPayload(6);
    while |b| > 0
      invariant p.GovernanceProposal?
      invariant Fold(bytes, ZeroPayload(6), InnerStep) == Fold(b, p, InnerStep)
      decreases |b|
    {
      var tag := ConsumeTag(b);
      if tag.Malformed? { return None; }
      match tag.value.num {
        case 1 =>
          var v := TakeBytes(b, tag);
          if v.Malformed? { return None; }
          p := p.(title := v.value);
          b := b[v.n..];
        case 2 =>
          var v := TakeBytes(b, tag);
          if v.Malformed? { return None; }
          p := p.(description := v.value);
          b := b[v.n..];
        case 3 =>
          var v := TakeBytes(b, tag);
          if v.Malformed? { return None; }
          p := p.(paramKey := v.value);
          b := b[v.n..];
        case 4 =>
          var v := TakeBytes(b, tag);
          if v.Malformed? { return None; }
          p := p.(paramValue := v.value);
          b := b[v.n..];
        case _ =>
          var v := SkipField(b, tag);
          if v.Malformed? { return None; }
          b := b[v.n..];
      }
    }
    return Some(p);
  }

  method DecodeGovernanceVote(bytes: Bytes) returns (r: Option<Payload>)
    ensures r == DecodeInner(7, bytes)
  {
    var b, p := bytes, ZeroPayload(7);
    while |b| > 0
      invariant p.GovernanceVote?
      invariant Fold(bytes, ZeroPayload(7), InnerStep) == Fold(b, p, InnerStep)
      decreases |b|
    {
      var tag := ConsumeTag(b);
      if tag.Malformed? { return None; }
      match tag.value.num {
        case 1 =>
          var v := TakeVarint(b, tag);
          if v.Malformed? { return None; }
          p := p.(proposalId := v.value);
          b := b[v.n..];
        case 2 =>
          var v := TakeVarint(b, tag);
          if v.Malformed? { return None; }
          p := p.(option := v.value % 256);
          b := b[v.n..];
        case _ =>
          var v := SkipField(b, tag);
          if v.Malformed? { return None; }
          b := b[v.n..];
      }
    }
    return Some(p);
  }

  /** The switch over the seven variants inside the payload loop. */
  method DecodeVariant(k: nat, bytes: Bytes) returns (r: Option<Payload>)
    requires 1 <= k <= 7
    ensures r == DecodeInner(k, bytes)
  {
    match k {
      case 1 => r := DecodeTransfer(bytes);
      case 2 => r := DecodeStakeDelegate(bytes);
      case 3 => r := DecodeStakeUndelegate(bytes);
      case 4 => r := DecodeContractDeploy(bytes);
      case 5 => r := DecodeContractCall(bytes);
      case 6 => r := DecodeGovernanceProposal(bytes);
      case _ => r := DecodeGovernanceVote(bytes);
    }
  }

  method DecodePayloadBytes(bytes: Bytes) returns (r: Option<PayloadEnvelope>)
    ensures r == DecodePayload(bytes)
  {
    if |bytes| == 0 {
      return None;
    }
    var b, draft := bytes, Partial(None, []);
    while |b| > 0
      invariant Fold(bytes, Partial(None, []), EnvelopeStep) == Fold(b, draft, EnvelopeStep)
      decreases |b|
    {
      var tag := ConsumeTag(b);
      if tag.Malformed? { return None; }
      var num := tag.value.num;
      if 1 <= num <= 7 {
        var v := TakeBytes(b, tag);
        if v.Malformed? || draft.payload.Some? { return None; }
        var p := DecodeVariant(num, v.value);
        if p.None? { return None; }
        draft := draft.(payload := p);
        b := b[v.n..];
      } else if num == 8 {
        var v := TakeBytes(b, tag);
        if v.Malformed? || |draft.key| > 0 { return None; }
        draft := draft.(key := v.value);
        b := b[v.n..];
      } else {
        var v := SkipField(b, tag);
        if v.Malformed? { return None; }
        b := b[v.n..];
      }
    }
    return Finish(Some(draft));
  }

  // ----- round trips -----

  lemma ArgStep(p: Payload, args: seq<Bytes>, k: nat)
    requires p.ContractCall? && k < |args|
    ensures InnerStep(p.(args := args[..k]), Field(3, Chunk(args[k]))) == Some(p.(args := args[..k + 1]))
  {
    assert args[..k + 1] == args[..k] + [args[k]];
  }

  lemma ArgSteps(p: Payload, args: seq<Bytes>)
    requires p.ContractCall? && p.args == []
    ensures Steps(ArgFields(args), p, InnerStep) == Some(p.(args := args))
  {
    var states := seq(|args| + 1, k requires 0 <= k <= |args| => p.(args := args[..k]));
    forall k | 0 <= k < |args|
      ensures InnerStep(states[k], ArgFields(args)[k]) == Some(states[k + 1])
    {
      ArgStep(p, args, k);
    }
    StepsAlong(ArgFields(args), states, InnerStep);
    assert args[..|args|] == args;
  }

  lemma CallRoundTrip(p: Payload)
    requires p.ContractCall? && |InnerBytes(p)| <= MAX64
    ensures DecodeInner(5, InnerBytes(p)) == Some(p)
  {
    var head := [Field(1, Chunk(p.contract)), Field(2, Chunk(p.entry))];
    var p1 := ContractCall(p.contract, [], []);
    var p2 := p.(args := []);
    StepsAlong(head, [ZeroPayload(5), p1, p2], InnerStep);
    ArgSteps(p2, p.args);
    FoldTwoRuns(head, ArgFields(p.args), ZeroPayload(5), InnerStep, p2, p);
  }

  lemma PairRoundTrip(p: Payload, mid: Payload)
    requires !p.ContractCall? && !p.GovernanceProposal? && |InnerBytes(p)| <= MAX64
    requires InnerStep(ZeroPayload(VariantNumber(p)), InnerFields(p)[0]) == Some(mid)
    requires InnerStep(mid, InnerFields(p)[1]) == Some(p)
    ensures DecodeInner(VariantNumber(p), InnerBytes(p)) == Some(p)
  {
    FoldEncoded(InnerFields(p), ZeroPayload(VariantNumber(p)), InnerStep);
    StepsAlong(InnerFields(p), [ZeroPayload(VariantNumber(p)), mid, p], InnerStep);
  }

  lemma ProposalRoundTrip(p: Payload)
    requires p.GovernanceProposal? && |InnerBytes(p)| <= MAX64
    ensures DecodeInner(6, InnerBytes(p)) == Some(p)
  {
    var p1 := GovernanceProposal(p.title, [], [], []);
    var p2 := p1.(description := p.description);
    var p3 := p2.(paramKey := p.paramKey);
    FoldEncoded(InnerFields(p), ZeroPayload(6), InnerStep);
    StepsAlong(InnerFields(p), [ZeroPayload(6), p1, p2, p3, p], InnerStep);
  }

  lemma InnerRoundTrip(p: Payload)
    requires |InnerBytes(p)| <= MAX64
    ensures DecodeInner(VariantNumber(p), InnerBytes(p)) == Some(p)
  {
    match p {
      case Transfer(to, amount) => PairRoundTrip(p, Transfer(to, 0));
      case StakeDelegate(validator, amount) => PairRoundTrip(p, StakeDelegate(validator, 0));
      case StakeUndelegate(validator, amount) => PairRoundTrip(p, StakeUndelegate(validator, 0));
      case ContractDeploy(code, salt) => PairRoundTrip(p, ContractDeploy(code, []));
      case ContractCall(_, _, _) => CallRoundTrip(p);
      case GovernanceProposal(_, _, _, _) => ProposalRoundTrip(p);
      case GovernanceVote(id, option) => PairRoundTrip(p, GovernanceVote(id, 0));
    }
  }

  /** Every variant, with any key or none, decodes to itself. */
  lemma PayloadRoundTrip(p: Payload, key: Bytes)
    requires |PayloadBytes(p, key)| <= MAX64
    ensures DecodePayload(PayloadBytes(p, key)) == Some(PayloadEnvelope(p, key))
  {
    var fs := EnvelopeFields(p, key);
    FieldWithinEncoding(fs, 0);
    InnerRoundTrip(p);
    FoldEncoded(fs, Partial(None, []), EnvelopeStep);
    var states := [Partial(None, []), Partial(Some(p), [])] + if |key| > 0 then [Partial(Some(p), key)] else [];
    StepsAlong(fs, states, EnvelopeStep);
  }

  lemma TransferSize(to: Address, amount: uint64, key: Bytes)
    requires |to| <= 64 && |key| <= 64
    ensures |PayloadBytes(Transfer(to, amount), key)| <= MAX64
  {
    hide Encode;
    var p := Transfer(to, amount);
    EncodedSize(InnerFields(p), 64);
    EncodedSize(EnvelopeFields(p, key), 168);
  }

  /** A field the envelope does not use changes nothing, wherever it stands. */
  lemma PayloadIgnoresUnknown(b: Bytes, u: Bytes, rest: Bytes)
    requires IsField(u) && ParseField(u).value.num > 8
    requires Fold(b, Partial(None, []), EnvelopeStep).Some? && |b + rest| > 0
    ensures DecodePayload(b + u + rest) == DecodePayload(b + rest)
  {
    FoldIgnores(b, u, rest, Partial(None, []), EnvelopeStep);
  }

  /** How many field numbers variant k uses. */
  function FieldCount(k: nat): nat { if k == 5 then 3 else if k == 6 then 4 else 2 }

  function OfVariant(k: nat): Payload -> bool { (p: Payload) => VariantNumber(p) == k }

  lemma DecodingKeepsVariant(k: nat, b: Bytes)
    requires 1 <= k <= 7
    ensures DecodeInner(k, b).Some? ==> VariantNumber(DecodeInner(k, b).value) == k
  {
    hide Fold;
    FoldInvariant(b, ZeroPayload(k), InnerStep, OfVariant(k), |b|);
  }

  /** A field the variant does not use changes nothing, wherever it stands in the variant's own bytes. */
  lemma InnerIgnoresUnknown(k: nat, b: Bytes, u: Bytes, rest: Bytes)
    requires 1 <= k <= 7 && IsField(u) && ParseField(u).value.num > FieldCount(k) && DecodeInner(k, b).Some?
    ensures DecodeInner(k, b + u + rest) == DecodeInner(k, b + rest)
  {
    hide Fold;
    DecodingKeepsVariant(k, b);
    FoldIgnores(b, u, rest, ZeroPayload(k), InnerStep);
  }

  /** Wherever a field stands in a variant's own bytes it sets its entry, arguments of a call apart. */
  lemma InnerFieldSets(b: Bytes, p: Payload, x: Bytes, v: uint64)
    requires DecodeInner(VariantNumber(p), b) == Some(p) && |x| <= MAX64 - 20
    ensures var k := VariantNumber(p);
      match p
      case Transfer(to, amount) =>
        && DecodeInner(k, b + ChunkField(0x0A, x)) == Some(Transfer(x, amount))
        && DecodeInner(k, b + NumberField(0x10, v)) == Some(Transfer(to, v))
      case StakeDelegate(validator, amount) =>
        && DecodeInner(k, b + ChunkField(0x0A, x)) == Some(StakeDelegate(x, amount))
        && DecodeInner(k, b + NumberField(0x10, v)) == Some(StakeDelegate(validator, v))
      case StakeUndelegate(validator, amount) =>
        && DecodeInner(k, b + ChunkField(0x0A, x)) == Some(StakeUndelegate(x, amount))
        && DecodeInner(k, b + NumberField(0x10, v)) == Some(StakeUndelegate(validator, v))
      case ContractDeploy(code, salt) =>
        && DecodeInner(k, b + ChunkField(0x0A, x)) == Some(ContractDeploy(x, salt))
        && DecodeInner(k, b + ChunkField(0x12, x)) == Some(ContractDeploy(code, x))
      case ContractCall(contract, entry, args) =>
        && DecodeInner(k, b + ChunkField(0x0A, x)) == Some(ContractCall(x, entry, args))
        && DecodeInner(k, b + ChunkField(0x12, x)) == Some(ContractCall(contract, x, args))
        && DecodeInner(k, b + ChunkField(0x1A, x)) == Some(ContractCall(contract, entry, args + [x]))
      case GovernanceProposal(title, description, key, value) =>
        && DecodeInner(k, b + ChunkField(0x0A, x)) == Some(GovernanceProposal(x, description, key, value))
        && DecodeInner(k, b + ChunkField(0x12, x)) == Some(GovernanceProposal(title, x, key, value))
        && DecodeInner(k, b + ChunkField(0x1A, x)) == Some(GovernanceProposal(title, description, x, value))
        && DecodeInner(k, b + ChunkField(0x22, x)) == Some(GovernanceProposal(title, description, key, x))
      case GovernanceVote(id, option) =>
        && DecodeInner(k, b + NumberField(0x08, v)) == Some(GovernanceVote(v, option))
        && DecodeInner(k, b + NumberField(0x10, v)) == Some(GovernanceVote(id, v % 256))
  {
    hide Fold;
    var start := ZeroPayload(VariantNumber(p));
    FoldField(b, Field(1, Chunk(x)), start, InnerStep);
    FoldField(b, Field(2, Chunk(x)), start, InnerStep);
    FoldField(b, Field(3, Chunk(x)), start, InnerStep);
    FoldField(b, Field(4, Chunk(x)), start, InnerStep);
    FoldField(b, Field(1, Number(v)), start, InnerStep);
    FoldField(b, Field(2, Number(v)), start, InnerStep);
  }

  /** A known field of the wrong wire type spoils a variant's bytes. */
  lemma InnerRefusesType(k: nat, b: Bytes, u: Bytes, rest: Bytes)
    requires 1 <= k <= 7 && IsField(u) && DecodeInner(k, b).Some?
    requires var f := ParseField(u).value;
      || (f.num == 1 && (if k == 7 then !f.value.Number? else !f.value.Chunk?))
      || (f.num == 2 && (if k in {4, 5, 6} then !f.value.Chunk? else !f.value.Number?))
      || (f.num == 3 && k in {5, 6} && !f.value.Chunk?)
      || (f.num == 4 && k == 6 && !f.value.Chunk?)
    ensures DecodeInner(k, b + u + rest) == None
  {
    hide Fold;
    DecodingKeepsVariant(k, b);
    FoldRefuses(b, u, rest, ZeroPayload(k), InnerStep);
  }

  /** In an envelope the field's number is the variant's, and neither a variant nor a key may come twice. */
  lemma EnvelopeFieldSets(b: Bytes, d: Partial, k: nat, x: Bytes)
    requires Fold(b, Partial(None, []), EnvelopeStep) == Some(d) && 1 <= k <= 7 && |x| <= MAX64 - 20
    ensures Fold(b + ChunkField(k * 8 + 2, x), Partial(None, []), EnvelopeStep)
         == if d.payload.Some? || DecodeInner(k, x).None? then None else Some(d.(payload := DecodeInner(k, x)))
    ensures Fold(b + ChunkField(0x42, x), Partial(None, []), EnvelopeStep)
         == if |d.key| > 0 then None else Some(d.(key := x))
    ensures DecodePayload(b + ChunkField(k * 8 + 2, x))
         == if d.payload.Some? || DecodeInner(k, x).None? then None
            else Some(PayloadEnvelope(DecodeInner(k, x).value, d.key))
  {
    hide Fold, DecodeInner;
    FoldField(b, Field(k, Chunk(x)), Partial(None, []), EnvelopeStep);
    FoldField(b, Field(8, Chunk(x)), Partial(None, []), EnvelopeStep);
  }

  /** A known field of the wrong wire type spoils an envelope. */
  lemma EnvelopeRefusesType(b: Bytes, u: Bytes, rest: Bytes)
    requires IsField(u) && Fold(b, Partial(None, []), EnvelopeStep).Some?
    requires 1 <= ParseField(u).value.num <= 8 && !ParseField(u).value.value.Chunk?
    ensures DecodePayload(b + u + rest) == None
  {
    hide Fold, DecodeInner;
    FoldRefuses(b, u, rest, Partial(None, []), EnvelopeStep);
  }

  /** Once a variant has been read a second one is refused, whatever it contains. */
  lemma SecondVariantRefused(b: Bytes, f: Printed)
    requires Fold(b, Partial(None, []), EnvelopeStep).Some? && DecodePayload(b).Some?
    requires 1 <= f.num <= 7 && |EncodeField(f)| <= MAX64
    ensures DecodePayload(b + EncodeField(f)) == None
  {
    var d := Fold(b, Partial(None, []), EnvelopeStep).value;
    var u := EncodeField(f);
    FoldContinues(b, u, Partial(None, []), EnvelopeStep);
    ParsePrintedField(f, []);
    assert u + [] == u;
    assert EnvelopeStep(d, f) == None;
  }

  // ----- nothing decoded is longer than the input -----

  /** The byte strings of a payload that reach the accounts have at most m bytes. */
  predicate PayloadWithin(p: Payload, m: nat) {
    match p
    case Transfer(to, _) => |to| <= m
    case ContractDeploy(code, _) => |code| <= m
    case _ => true
  }

  function InnerWithin(m: nat): Payload -> bool { (p: Payload) => PayloadWithin(p, m) }

  function PartialWithin(m: nat): Partial -> bool {
    (d: Partial) => d.payload.Some? ==> PayloadWithin(d.payload.value, m)
  }

  lemma DecodeInnerWithin(k: nat, b: Bytes, m: nat)
    requires 1 <= k <= 7 && |b| <= m
    ensures DecodeInner(k, b).Some? ==> PayloadWithin(DecodeInner(k, b).value, m)
  {
    hide Fold;
    FoldInvariant(b, ZeroPayload(k), InnerStep, InnerWithin(m), m);
  }

  lemma EnvelopeStepWithin(d: Partial, f: Field, m: nat)
    requires PartialWithin(m)(d) && (f.value.Chunk? ==> |f.value.b| <= m)
    ensures EnvelopeStep(d, f).Some? ==> PartialWithin(m)(EnvelopeStep(d, f).value)
  {
    hide DecodeInner;
    if 1 <= f.num <= 7 && f.value.Chunk? {
      DecodeInnerWithin(f.num, f.value.b, m);
    }
  }

  lemma DecodedWithin(b: Bytes)
    ensures DecodePayload(b).Some? ==> PayloadWithin(DecodePayload(b).value.payload, |b|)
  {
    hide Fold, EnvelopeStep, PartialWithin, PayloadWithin;
    var m := |b|;
    forall d: Partial, f: Field | PartialWithin(m)(d) && (f.value.Chunk? ==> |f.value.b| <= m)
      && EnvelopeStep(d, f).Some?
      ensures PartialWithin(m)(EnvelopeStep(d, f).value)
    {
      EnvelopeStepWithin(d, f, m);
    }
    PartialStart(m);
    FoldInvariant(b, Partial(None, []), EnvelopeStep, PartialWithin(m), m);
    if DecodePayload(b).Some? {
      PartialHolds(Fold(b, Partial(None, []), EnvelopeStep).value, m);
    }
  }

  lemma PartialStart(m: nat)
    ensures PartialWithin(m)(Partial(None, []))
  {
  }

  lemma PartialHolds(d: Partial, m: nat)
    requires PartialWithin(m)(d) && d.payload.Some?
    ensures PayloadWithin(d.payload.value, m)
  {
  }
}
