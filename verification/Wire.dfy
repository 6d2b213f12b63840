/**
 * The Protocol Buffers wire format as the node uses it: base-128 varints, tags,
 * length-delimited records and the skipping of unknown fields (groups included).
 */
module Wire {
  import opened Wrappers
  import opened Machine

  const VARINT := 0
  const FIXED64 := 1
  const BYTES := 2
  const START_GROUP := 3
  const END_GROUP := 4
  const FIXED32 := 5

  /** How deep groups may nest before a field is refused. */
  const RECURSION_LIMIT := 10000

  /** Outcome of a consume operation: the value and the number of bytes read. */
  datatype Read<+T> = Malformed | Got(value: T, n: nat)

  datatype Tag = Tag(num: nat, typ: nat)

  // ----- printing -----

  function Varint(v: uint64): (b: Bytes)
    ensures |b| >= 1
  {
    if v < 128 then [v] else [v % 128 + 128] + Varint(v / 128)
  }

  function AppendVarint(b: Bytes, v: uint64): Bytes { b + Varint(v) }

  function AppendTag(b: Bytes, num: nat, typ: nat): Bytes
    requires 1 <= num <= MAX_INT32 && typ < 8
  {
    b + Varint(num * 8 + typ)
  }

  function AppendBytes(b: Bytes, v: Bytes): Bytes { b + Varint(Len64(v)) + v }

  // ----- consuming -----

  /** Values that fit in the bytes from position i of a varint onwards; the tenth byte holds one bit. */
  function VarintLimit(i: nat): (r: nat)
    requires i <= 9
    ensures r >= 2
    decreases 9 - i
  {
    if i == 9 then 2 else 128 * VarintLimit(i + 1)
  }

  lemma VarintLimitIs64Bits()
    ensures VarintLimit(0) == TWO64
  {
    assert VarintLimit(8) == 128 * VarintLimit(9);
    assert VarintLimit(6) == 128 * 128 * VarintLimit(8);
    assert VarintLimit(4) == 128 * 128 * VarintLimit(6);
    assert VarintLimit(2) == 128 * 128 * VarintLimit(4);
  }

  function ConsumeVarintFrom(b: Bytes, i: nat): (r: Read<nat>)
    requires i <= 9
    ensures r.Got? ==> r.value < VarintLimit(i) && 1 <= r.n <= |b|
    decreases 9 - i
  {
    if b == [] then Malformed
    else if b[0] < 128 then
      if i == 9 && b[0] >= 2 then Malformed else Got(b[0], 1)
    else if i == 9 then Malformed
    else
      match ConsumeVarintFrom(b[1..], i + 1)
      case Malformed => Malformed
      case Got(v, n) => Got(b[0] - 128 + 128 * v, n + 1)
  }

  function ConsumeVarint(b: Bytes): (r: Read<uint64>)
    ensures r.Got? ==> 1 <= r.n <= |b|
  {
    VarintLimitIs64Bits();
    match ConsumeVarintFrom(b, 0)
    case Malformed => Malformed
    case Got(v, n) => Got(v, n)
  }

  function ConsumeTag(b: Bytes): (r: Read<Tag>)
    ensures r.Got? ==> 1 <= r.n <= |b| && 1 <= r.value.num <= MAX_INT32 && r.value.typ < 8
  {
    match ConsumeVarint(b)
    case Malformed => Malformed
    case Got(v, n) =>
      if 1 <= v / 8 <= MAX_INT32 then Got(Tag(v / 8, v % 8), n) else Malformed
  }

  function ConsumeBytes(b: Bytes): (r: Read<Bytes>)
    ensures r.Got? ==> 1 <= r.n <= |b|
  {
    match ConsumeVarint(b)
    case Malformed => Malformed
    case Got(m, n) => if m > |b| - n then Malformed else Got(b[n..n + m], n + m)
  }

  function ConsumeFixed(b: Bytes, width: nat): Read<()>
  {
    if |b| < width then Malformed else Got((), width)
  }

  /** Length of the value of a field with the given tag, unknown groups included. */
  function ConsumeFieldValueD(num: nat, typ: nat, b: Bytes, depth: int): (r: Read<()>)
    ensures r.Got? ==> r.n <= |b|
    decreases |b|, 1
  {
    if typ == VARINT then
      match ConsumeVarint(b) { case Malformed => Malformed case Got(_, n) => Got((), n) }
    else if typ == FIXED32 then ConsumeFixed(b, 4)
    else if typ == FIXED64 then ConsumeFixed(b, 8)
    else if typ == BYTES then
      match ConsumeBytes(b) { case Malformed => Malformed case Got(_, n) => Got((), n) }
    else if typ == START_GROUP then
      if depth < 0 then Malformed else ConsumeGroup(num, b, depth)
    else Malformed
  }

  /** The loop over the members of a group, up to its matching end tag. */
  function ConsumeGroup(num: nat, b: Bytes, depth: int): (r: Read<()>)
    ensures r.Got? ==> r.n <= |b|
    decreases |b|, 0
  {
    var tag := ConsumeTag(b);
    if tag.Malformed? then Malformed
    else if tag.value.typ == END_GROUP then
      if tag.value.num == num then Got((), tag.n) else Malformed
    else
      var member := ConsumeFieldValueD(tag.value.num, tag.value.typ, b[tag.n..], depth - 1);
      if member.Malformed? then Malformed
      else Further(ConsumeGroup(num, b[tag.n + member.n..], depth), tag.n + member.n)
  }

  function Further(r: Read<()>, n: nat): Read<()> {
    if r.Malformed? then Malformed else Got((), n + r.n)
  }

  function ConsumeFieldValue(num: nat, typ: nat, b: Bytes): (r: Read<()>)
    ensures r.Got? ==> r.n <= |b|
  {
    ConsumeFieldValueD(num, typ, b, RECURSION_LIMIT)
  }

  // ----- fields -----

  /** What a field carries; `Skipped` stands for a wire type no message of the node declares. */
  datatype Value = Number(v: uint64) | Chunk(b: Bytes) | Skipped(typ: nat)

  datatype Field = Field(num: nat, value: Value)

  /** The fields the node prints. */
  type Printed = f: Field | 1 <= f.num <= MAX_INT32 && !f.value.Skipped? witness Field(1, Number(0))

  function FieldHead(f: Printed): Bytes {
    Varint(f.num * 8 + if f.value.Number? then VARINT else BYTES)
  }

  function FieldBody(f: Printed): Bytes {
    match f.value
    case Number(v) => Varint(v)
    case Chunk(c) => Varint(Len64(c)) + c
  }

  function EncodeField(f: Printed): (b: Bytes)
    ensures |b| >= 1
  {
    FieldHead(f) + FieldBody(f)
  }

  function Encode(fs: seq<Printed>): Bytes
  {
    if fs == [] then [] else EncodeField(fs[0]) + Encode(fs[1..])
  }

  /** One tag and its value, as every parse loop reads them. */
  function ParseField(b: Bytes): (r: Read<Field>)
    ensures r.Got? ==> 1 <= r.n <= |b| && 1 <= r.value.num <= MAX_INT32
  {
    match ConsumeTag(b)
    case Malformed => Malformed
    case Got(tag, n) =>
      if tag.typ == VARINT then
        match ConsumeVarint(b[n..])
        case Malformed => Malformed
        case Got(v, m) => Got(Field(tag.num, Number(v)), n + m)
      else if tag.typ == BYTES then
        match ConsumeBytes(b[n..])
        case Malformed => Malformed
        case Got(c, m) => Got(Field(tag.num, Chunk(c)), n + m)
      else
        match ConsumeFieldValue(tag.num, tag.typ, b[n..])
        case Malformed => Malformed
        case Got(_, m) => Got(Field(tag.num, Skipped(tag.typ)), n + m)
  }

  /** Reads fields to the end of b, folding each into an accumulator that may refuse it. */
  function Fold<T>(b: Bytes, acc: T, step: (T, Field) -> Option<T>): Option<T>
    decreases |b|
  {
    if b == [] then Some(acc)
    else
      match ParseField(b)
      case Malformed => None
      case Got(f, n) =>
        match step(acc, f)
        case None => None
        case Some(next) => Fold(b[n..], next, step)
  }

  /** A message that may not be empty. */
  function DecodeMessage<T>(b: Bytes, empty: T, step: (T, Field) -> Option<T>): Option<T> {
    if |b| == 0 then None else Fold(b, empty, step)
  }

  /** The same fold over fields that are already parsed. */
  function Steps<T>(fs: seq<Field>, acc: T, step: (T, Field) -> Option<T>): Option<T>
  {
    if fs == [] then Some(acc)
    else
      match step(acc, fs[0])
      case None => None
      case Some(next) => Steps(fs[1..], next, step)
  }

  // ----- the three ways a parse loop reads the field its tag announces -----

  /** A length-delimited field: the wire type is checked, then the value is read. */
  method TakeBytes(b: Bytes, tag: Read<Tag>) returns (r: Read<Bytes>)
    requires tag.Got? && tag == ConsumeTag(b)
    ensures r.Got? ==> r.n <= |b| && ParseField(b) == Got(Field(tag.value.num, Chunk(r.value)), r.n)
    ensures r.Malformed? ==>
        ParseField(b).Malformed? || (ParseField(b).value.num == tag.value.num && !ParseField(b).value.value.Chunk?)
  {
    if tag.value.typ != BYTES {
      return Malformed;
    }
    var v := ConsumeBytes(b[tag.n..]);
    r := if v.Malformed? then Malformed else Got(v.value, tag.n + v.n);
  }

  /** A varint field, likewise. */
  method TakeVarint(b: Bytes, tag: Read<Tag>) returns (r: Read<uint64>)
    requires tag.Got? && tag == ConsumeTag(b)
    ensures r.Got? ==> r.n <= |b| && ParseField(b) == Got(Field(tag.value.num, Number(r.value)), r.n)
    ensures r.Malformed? ==>
        ParseField(b).Malformed? || (ParseField(b).value.num == tag.value.num && !ParseField(b).value.value.Number?)
  {
    if tag.value.typ != VARINT {
      return Malformed;
    }
    var v := ConsumeVarint(b[tag.n..]);
    r := if v.Malformed? then Malformed else Got(v.value, tag.n + v.n);
  }

  /** A field nobody declared, skipped whatever its wire type. */
  method SkipField(b: Bytes, tag: Read<Tag>) returns (r: Read<()>)
    requires tag.Got? && tag == ConsumeTag(b)
    ensures r.Malformed? <==> ParseField(b).Malformed?
    ensures r.Got? ==> r.n == ParseField(b).n <= |b| && ParseField(b).value.num == tag.value.num
  {
    var v := ConsumeFieldValue(tag.value.num, tag.value.typ, b[tag.n..]);
    r := if v.Malformed? then Malformed else Got((), tag.n + v.n);
  }

  // ----- printers and parsers undo each other -----

  lemma {:induction false} VarintRoundTrip(v: uint64, rest: Bytes, i: nat)
    requires i <= 9 && v < VarintLimit(i)
    ensures ConsumeVarintFrom(Varint(v) + rest, i) == Got(v, |Varint(v)|)
    decreases v
  {
    if v >= 128 {
      assert (Varint(v) + rest)[1..] == Varint(v / 128) + rest;
      VarintRoundTrip(v / 128, rest, i + 1);
    }
  }

  lemma {:induction false} VarintSize(v: uint64, i: nat)
    requires i <= 9 && v < VarintLimit(i)
    ensures |Varint(v)| <= 10 - i
    decreases v
  {
    if v >= 128 {
      VarintSize(v / 128, i + 1);
    }
  }

  lemma ConsumeVarintPrinted(v: uint64, rest: Bytes)
    ensures ConsumeVarint(Varint(v) + rest) == Got(v, |Varint(v)|)
  {
    VarintLimitIs64Bits();
    VarintRoundTrip(v, rest, 0);
  }

  lemma ConsumeBytesPrinted(c: Bytes, rest: Bytes)
    requires |c| <= MAX64
    ensures ConsumeBytes(Varint(Len64(c)) + c + rest) == Got(c, |Varint(Len64(c))| + |c|)
  {
    var head := Varint(Len64(c));
    var b := head + c + rest;
    assert Len64(c) == |c|;
    assert ConsumeVarint(b) == Got(|c|, |head|) by {
      assert b == head + (c + rest);
      ConsumeVarintPrinted(Len64(c), c + rest);
    }
    assert b[|head|..|head| + |c|] == c;
  }

  lemma ConsumeTagPrinted(num: nat, typ: nat, rest: Bytes)
    requires 1 <= num <= MAX_INT32 && typ < 8
    ensures ConsumeTag(Varint(num * 8 + typ) + rest) == Got(Tag(num, typ), |Varint(num * 8 + typ)|)
  {
    ConsumeVarintPrinted(num * 8 + typ, rest);
  }

  lemma SplitPrinted(whole: Bytes, head: Bytes, body: Bytes, rest: Bytes)
    requires whole == head + body
    ensures whole + rest == head + (body + rest)
    ensures (head + (body + rest))[|head|..] == body + rest
  {
  }

  lemma ParsePrintedNumber(num: nat, v: uint64, rest: Bytes)
    requires 1 <= num <= MAX_INT32
    ensures ParseField(Varint(num * 8 + VARINT) + (Varint(v) + rest))
         == Got(Field(num, Number(v)), |Varint(num * 8 + VARINT)| + |Varint(v)|)
  {
    var head := Varint(num * 8 + VARINT);
    ConsumeTagPrinted(num, VARINT, Varint(v) + rest);
    SplitPrinted(head + Varint(v), head, Varint(v), rest);
    ConsumeVarintPrinted(v, rest);
  }

  lemma ParsePrintedChunk(num: nat, c: Bytes, rest: Bytes)
    requires 1 <= num <= MAX_INT32 && |c| <= MAX64
    ensures ParseField(Varint(num * 8 + BYTES) + (Varint(Len64(c)) + c + rest))
         == Got(Field(num, Chunk(c)), |Varint(num * 8 + BYTES)| + |Varint(Len64(c)) + c|)
  {
    hide Varint, ConsumeTag, ConsumeBytes;
    var head, body := Varint(num * 8 + BYTES), Varint(Len64(c)) + c;
    ConsumeBytesPrinted(c, rest);
    ConsumeTagPrinted(num, BYTES, body + rest);
    SplitPrinted(head + body, head, body, rest);
  }

  lemma ParsePrintedField(f: Printed, rest: Bytes)
    requires |EncodeField(f)| <= MAX64
    ensures ParseField(EncodeField(f) + rest) == Got(f, |EncodeField(f)|)
  {
    hide ParseField, Varint;
    SplitPrinted(EncodeField(f), FieldHead(f), FieldBody(f), rest);
    match f.value {
      case Number(v) => ParsePrintedNumber(f.num, v, rest);
      case Chunk(c) => ParsePrintedChunk(f.num, c, rest);
    }
  }

  // ----- the format in plain bytes -----

  /** Base 128, least significant digit first, the top bit of each byte left out. */
  function Base128(b: Bytes): nat { if b == [] then 0 else b[0] % 128 + 128 * Base128(b[1..]) }

  /** The first n bytes are the first varint of b: each but the last has its top bit set. */
  predicate VarintEnds(b: Bytes, n: nat) {
    1 <= n <= |b| && b[n - 1] < 128 && forall i :: 0 <= i < n - 1 ==> b[i] >= 128
  }

  /** A printed varint is its value in base 128, with the top bit set on all bytes but the last. */
  lemma {:induction false} VarintMeans(v: uint64)
    ensures Base128(Varint(v)) == v && VarintEnds(Varint(v), |Varint(v)|)
    ensures |Varint(v)| > 1 ==> Varint(v)[|Varint(v)| - 1] > 0
    decreases v
  {
    if v >= 128 {
      VarintMeans(v / 128);
      assert Varint(v)[1..] == Varint(v / 128);
    }
  }

  lemma {:induction false} ConsumeVarintFromMeans(b: Bytes, i: nat, n: nat)
    requires i <= 9 && VarintEnds(b, n)
    ensures ConsumeVarintFrom(b, i)
         == if i + n <= 10 && Base128(b[..n]) < VarintLimit(i) then Got(Base128(b[..n]), n) else Malformed
    decreases n
  {
    hide Base128, VarintLimit, ConsumeVarintFrom;
    Base128Step(b, n);
    LimitAbove(i);
    FirstByte(b, i);
    if n > 1 && i < 9 {
      assert VarintEnds(b[1..], n - 1);
      ConsumeVarintFromMeans(b[1..], i + 1, n - 1);
      DigitAbove(b[0] % 128, Base128(b[1..][..n - 1]), VarintLimit(i + 1));
    }
  }

  lemma FirstByte(b: Bytes, i: nat)
    requires i <= 9 && |b| > 0
    ensures b[0] < 128 ==> ConsumeVarintFrom(b, i) == if i == 9 && b[0] >= 2 then Malformed else Got(b[0], 1)
    ensures b[0] >= 128 && i == 9 ==> ConsumeVarintFrom(b, i) == Malformed
    ensures b[0] >= 128 && i < 9 ==>
              ConsumeVarintFrom(b, i)
                == match ConsumeVarintFrom(b[1..], i + 1) {
                     case Malformed => Malformed
                     case Got(v, n) => Got(b[0] - 128 + 128 * v, n + 1)
                   }
  {
  }

  lemma DigitAbove(d: nat, v: nat, limit: nat)
    requires d < 128
    ensures d + 128 * v < 128 * limit <==> v < limit
  {
  }

  lemma Base128Step(b: Bytes, n: nat)
    requires 1 <= n <= |b|
    ensures Base128(b[..n]) == b[0] % 128 + 128 * Base128(b[1..][..n - 1])
    ensures n == 1 ==> Base128(b[..n]) == b[0] % 128
  {
    assert b[..n][1..] == b[1..][..n - 1];
  }

  lemma LimitAbove(i: nat)
    requires i <= 9
    ensures VarintLimit(i) >= if i == 9 then 2 else 128
    ensures VarintLimit(i) == if i == 9 then 2 else 128 * VarintLimit(i + 1)
  {
  }

  /** A varint is read as its value in base 128 if it ends within ten bytes and the value within 64 bits. */
  lemma ConsumeVarintMeans(b: Bytes, n: nat)
    requires VarintEnds(b, n)
    ensures ConsumeVarint(b) == if n <= 10 && Base128(b[..n]) <= MAX64 then Got(Base128(b[..n]), n) else Malformed
  {
    hide ConsumeVarintFrom, Base128, VarintLimit;
    VarintLimitIs64Bits();
    ConsumeVarintFromMeans(b, 0, n);
  }

  /** Bytes that all have their top bit set hold no varint. */
  lemma {:induction false} EndlessVarint(b: Bytes, i: nat)
    requires i <= 9 && forall k :: 0 <= k < |b| ==> b[k] >= 128
    ensures ConsumeVarintFrom(b, i).Malformed?
    decreases |b|
  {
    if b != [] && i < 9 {
      EndlessVarint(b[1..], i + 1);
    }
  }

  /**
   * How much an unknown field takes after its tag: a varint up to its end, four or eight bytes
   * for the fixed widths, a length and that many bytes; an end of group or an undefined type
   * is refused.
   */
  lemma SkippedBytes(num: nat, typ: nat, b: Bytes, depth: int, n: nat)
    ensures var r := ConsumeFieldValueD(num, typ, b, depth);
      && (typ == 5 ==> r == if |b| >= 4 then Got((), 4) else Malformed)
      && (typ == 1 ==> r == if |b| >= 8 then Got((), 8) else Malformed)
      && (typ == 4 || typ > 5 ==> r == Malformed)
      && (typ == 0 && VarintEnds(b, n) ==>
            r == if n <= 10 && Base128(b[..n]) <= MAX64 then Got((), n) else Malformed)
      && (typ == 2 && VarintEnds(b, n) ==>
            r == if n <= 10 && Base128(b[..n]) <= |b| - n && Base128(b[..n]) <= MAX64
                 then Got((), n + Base128(b[..n])) else Malformed)
  {
    hide ConsumeVarint, ConsumeGroup, Base128, VarintEnds;
    if VarintEnds(b, n) {
      ConsumeVarintMeans(b, n);
    }
  }

  /** A number: its key byte and the number. */
  function NumberField(key: uint8, v: uint64): Bytes { [key] + Varint(v) }

  /** A byte string: its key byte, its length and its bytes. */
  function ChunkField(key: uint8, b: Bytes): Bytes { [key] + Varint(Len64(b)) + b }

  /** The fields with small numbers that the messages consist of, byte by byte. */
  lemma FieldLayout(f: Printed)
    requires f.num < 16
    ensures f.value.Number? ==> EncodeField(f) == NumberField(f.num * 8, f.value.v)
    ensures f.value.Chunk? ==> EncodeField(f) == ChunkField(f.num * 8 + 2, f.value.b)
  {
    if f.value.Chunk? {
      assert Varint(f.num * 8 + 2) == [f.num * 8 + 2];
    } else {
      assert Varint(f.num * 8) == [f.num * 8];
    }
  }

  /** A message is its fields one after the other. */
  lemma {:induction false} EncodeParts(fs: seq<Printed>, parts: seq<Bytes>)
    requires |fs| == |parts| && forall i :: 0 <= i < |fs| ==> parts[i] == EncodeField(fs[i])
    ensures Encode(fs) == Joined(parts)
    decreases |fs|
  {
    hide EncodeField;
    if fs != [] {
      EncodeParts(fs[1..], parts[1..]);
    }
  }

  function Joined(parts: seq<Bytes>): Bytes { if parts == [] then [] else parts[0] + Joined(parts[1..]) }

  /** The two appends the marshallers make for one field. */
  lemma AppendField(b: Bytes, f: Printed)
    ensures f.value.Number? ==>
              AppendVarint(AppendTag(b, f.num, VARINT), f.value.v) == b + EncodeField(f)
    ensures f.value.Chunk? ==>
              AppendBytes(AppendTag(b, f.num, BYTES), f.value.b) == b + EncodeField(f)
  {
    if f.value.Chunk? {
      SplitPrinted(b + FieldHead(f), b, FieldHead(f), FieldBody(f));
      SplitPrinted(b + FieldHead(f) + Varint(Len64(f.value.b)), b + FieldHead(f), Varint(Len64(f.value.b)), f.value.b);
    } else {
      SplitPrinted(b + FieldHead(f), b, FieldHead(f), FieldBody(f));
    }
  }

  /** Parsing what was printed, whatever follows it, applies the printed fields in order. */
  lemma {:induction false} FoldPrinted<T>(fs: seq<Printed>, rest: Bytes, acc: T, step: (T, Field) -> Option<T>)
    requires |Encode(fs)| <= MAX64
    ensures Fold(Encode(fs) + rest, acc, step)
         == (match Steps(fs, acc, step)
             case None => None
             case Some(next) => Fold(rest, next, step))
    decreases |fs|
  {
    if fs == [] {
      assert Encode(fs) + rest == rest;
    } else {
      var head, tail := EncodeField(fs[0]), Encode(fs[1..]);
      SplitPrinted(Encode(fs), head, tail, rest);
      ParsePrintedField(fs[0], tail + rest);
      match step(acc, fs[0]) {
        case None =>
        case Some(next) => FoldPrinted(fs[1..], rest, next, step);
      }
    }
  }

  lemma FoldEncoded<T>(fs: seq<Printed>, acc: T, step: (T, Field) -> Option<T>)
    requires |Encode(fs)| <= MAX64
    ensures Fold(Encode(fs), acc, step) == Steps(fs, acc, step)
  {
    FoldPrinted(fs, [], acc, step);
    assert Encode(fs) + [] == Encode(fs);
  }

  /** Appending one field to a buffer that already holds fields. */
  lemma EncodeSnoc(fs: seq<Printed>, f: Printed)
    ensures Encode(fs + [f]) == Encode(fs) + EncodeField(f)
  {
    EncodeConcat(fs, [f]);
    assert Encode([f]) == EncodeField(f) + Encode([f][1..]);
  }

  lemma {:induction false} EncodeConcat(fs: seq<Printed>, gs: seq<Printed>)
    ensures Encode(fs + gs) == Encode(fs) + Encode(gs)
    decreases |fs|
  {
    if fs == [] {
      assert fs + gs == gs;
    } else {
      assert (fs + gs)[1..] == fs[1..] + gs;
      EncodeConcat(fs[1..], gs);
      SplitPrinted(Encode(fs), EncodeField(fs[0]), Encode(fs[1..]), Encode(gs));
    }
  }

  /** The buffer after each append: the encoding of the fields printed so far. */
  lemma EncodePrefixes(fs: seq<Printed>)
    ensures Encode(fs[..0]) == [] && fs[..|fs|] == fs
    ensures forall k :: 0 <= k < |fs| ==> Encode(fs[..k + 1]) == Encode(fs[..k]) + EncodeField(fs[k])
  {
    forall k | 0 <= k < |fs|
      ensures Encode(fs[..k + 1]) == Encode(fs[..k]) + EncodeField(fs[k])
    {
      assert fs[..k + 1] == fs[..k] + [fs[k]];
      EncodeSnoc(fs[..k], fs[k]);
    }
  }

  lemma {:induction false} StepsConcat<T>(fs: seq<Field>, gs: seq<Field>, acc: T, step: (T, Field) -> Option<T>)
    ensures Steps(fs + gs, acc, step)
         == (match Steps(fs, acc, step) case None => None case Some(next) => Steps(gs, next, step))
    decreases |fs|
  {
    if fs == [] {
      assert fs + gs == gs;
    } else {
      assert (fs + gs)[1..] == fs[1..] + gs;
      match step(acc, fs[0]) {
        case None =>
        case Some(next) => StepsConcat(fs[1..], gs, next, step);
      }
    }
  }

  lemma StepsTwoRuns<T>(fs: seq<Field>, gs: seq<Field>, acc: T, step: (T, Field) -> Option<T>, a: T, b: T)
    requires Steps(fs, acc, step) == Some(a) && Steps(gs, a, step) == Some(b)
    ensures Steps(fs + gs, acc, step) == Some(b)
  {
    StepsConcat(fs, gs, acc, step);
  }

  /** A message printed as two runs of fields, each of which is stepped through completely. */
  lemma FoldTwoRuns<T>(fs: seq<Printed>, gs: seq<Printed>, acc: T, step: (T, Field) -> Option<T>, a: T, b: T)
    requires |Encode(fs + gs)| <= MAX64
    requires Steps(fs, acc, step) == Some(a) && Steps(gs, a, step) == Some(b)
    ensures Fold(Encode(fs + gs), acc, step) == Some(b)
  {
    FoldEncoded(fs + gs, acc, step);
    StepsConcat(fs, gs, acc, step);
  }

  lemma {:induction false} FieldWithinEncoding(fs: seq<Printed>, k: nat)
    requires k < |fs|
    ensures |EncodeField(fs[k])| <= |Encode(fs)|
    decreases k
  {
    hide Encode, EncodeField;
    EncodeHead(fs);
    if k > 0 {
      assert fs[k] == fs[1..][k - 1];
      FieldWithinEncoding(fs[1..], k - 1);
    }
  }

  lemma FieldSize(f: Printed, m: nat)
    requires f.value.Chunk? ==> |f.value.b| <= m
    ensures |EncodeField(f)| <= 20 + m
  {
    VarintLimitIs64Bits();
    VarintSize(f.num * 8 + if f.value.Number? then VARINT else BYTES, 0);
    match f.value {
      case Number(v) => VarintSize(v, 0);
      case Chunk(c) => VarintSize(Len64(c), 0);
    }
  }

  /** A message is no longer than its fields: at most 20 bytes each besides their contents. */
  lemma {:induction false} EncodedSize(fs: seq<Printed>, m: nat)
    requires forall i :: 0 <= i < |fs| && fs[i].value.Chunk? ==> |fs[i].value.b| <= m
    ensures |Encode(fs)| <= |fs| * (20 + m)
    decreases |fs|
  {
    if fs != [] {
      FieldSize(fs[0], m);
      hide Encode, EncodeField;
      EncodedSize(fs[1..], m);
      EncodeHead(fs);
      OneMore(|fs[1..]|, 20 + m);
    }
  }

  /** A message that opens with field 1, length-delimited, opens with byte 0x0A. */
  lemma EncodeStart(fs: seq<Printed>)
    requires |fs| > 0 && fs[0].num == 1 && fs[0].value.Chunk?
    ensures |Encode(fs)| > 0 && Encode(fs)[0] == 0x0A
  {
    assert FieldHead(fs[0]) == [0x0A];
  }

  lemma OneMore(n: nat, c: nat)
    ensures (n + 1) * c == n * c + c
  {
  }

  lemma EncodeHead(fs: seq<Printed>)
    requires fs != []
    ensures |Encode(fs)| == |EncodeField(fs[0])| + |Encode(fs[1..])|
  {
  }

  /** states[k] is the accumulator after k fields. */
  lemma {:induction false} StepsAlong<T>(fs: seq<Field>, states: seq<T>, step: (T, Field) -> Option<T>)
    requires |states| == |fs| + 1
    requires forall k :: 0 <= k < |fs| ==> step(states[k], fs[k]) == Some(states[k + 1])
    ensures Steps(fs, states[0], step) == Some(states[|fs|])
    decreases |fs|
  {
    if fs != [] {
      StepsAlong(fs[1..], states[1..], step);
    }
  }

  lemma {:induction false} CollectSteps(fs: seq<Field>, acc: seq<Field>)
    ensures Steps(fs, acc, (a: seq<Field>, f: Field) => Some(a + [f])) == Some(acc + fs)
    decreases |fs|
  {
    if fs == [] {
      assert acc + fs == acc;
    } else {
      CollectSteps(fs[1..], acc + [fs[0]]);
      assert acc + [fs[0]] + fs[1..] == acc + fs;
    }
  }

  /** Two field lists with the same bytes are the same list. */
  lemma EncodeInjective(fs: seq<Printed>, gs: seq<Printed>)
    requires |Encode(fs)| <= MAX64
    requires Encode(fs) == Encode(gs)
    ensures fs == gs
  {
    var collect := (a: seq<Field>, f: Field) => Some(a + [f]);
    FoldEncoded(fs, [], collect);
    FoldEncoded(gs, [], collect);
    CollectSteps(fs, []);
    CollectSteps(gs, []);
    assert fs == [] + fs == [] + gs == gs;
  }

  // ----- bytes that follow a field never change how it is read -----

  lemma DropExtend(b: Bytes, u: Bytes, n: nat)
    requires n <= |b|
    ensures (b + u)[n..] == b[n..] + u
  {
  }

  lemma SliceExtend(b: Bytes, u: Bytes, i: nat, j: nat)
    requires i <= j <= |b|
    ensures (b + u)[i..j] == b[i..j]
  {
  }

  lemma {:induction false} ConsumeVarintExtend(b: Bytes, u: Bytes, i: nat)
    requires i <= 9 && ConsumeVarintFrom(b, i).Got?
    ensures ConsumeVarintFrom(b + u, i) == ConsumeVarintFrom(b, i)
    decreases 9 - i
  {
    if b[0] >= 128 {
      assert (b + u)[1..] == b[1..] + u;
      ConsumeVarintExtend(b[1..], u, i + 1);
    }
  }

  lemma ConsumeTagExtend(b: Bytes, u: Bytes)
    requires ConsumeTag(b).Got?
    ensures ConsumeTag(b + u) == ConsumeTag(b)
  {
    ConsumeVarintExtend(b, u, 0);
  }

  lemma ConsumeBytesExtend(b: Bytes, u: Bytes)
    requires ConsumeBytes(b).Got?
    ensures ConsumeBytes(b + u) == ConsumeBytes(b)
  {
    ConsumeVarintExtend(b, u, 0);
    SliceExtend(b, u, ConsumeVarint(b).n, ConsumeVarint(b).n + ConsumeVarint(b).value);
  }

  lemma {:induction false} ConsumeFieldValueExtend(num: nat, typ: nat, b: Bytes, u: Bytes, depth: int)
    requires ConsumeFieldValueD(num, typ, b, depth).Got?
    ensures ConsumeFieldValueD(num, typ, b + u, depth) == ConsumeFieldValueD(num, typ, b, depth)
    decreases |b|, 2
  {
    if typ == VARINT {
      ConsumeVarintExtend(b, u, 0);
    } else if typ == BYTES {
      ConsumeBytesExtend(b, u);
    } else if typ == START_GROUP {
      ConsumeGroupExtend(num, b, u, depth);
    }
  }

  lemma {:induction false} ConsumeGroupExtend(num: nat, b: Bytes, u: Bytes, depth: int)
    requires ConsumeGroup(num, b, depth).Got?
    ensures ConsumeGroup(num, b + u, depth) == ConsumeGroup(num, b, depth)
    decreases |b|, 1
  {
    ConsumeTagExtend(b, u);
    if ConsumeTag(b).value.typ != END_GROUP {
      GroupMemberExtend(num, b, u, depth, ConsumeTag(b).value, ConsumeTag(b).n);
    }
  }

  lemma {:induction false} GroupMemberExtend(num: nat, b: Bytes, u: Bytes, depth: int, tag: Tag, n: nat)
    requires ConsumeTag(b) == Got(tag, n) && ConsumeTag(b + u) == Got(tag, n) && tag.typ != END_GROUP
    requires ConsumeGroup(num, b, depth).Got?
    ensures ConsumeGroup(num, b + u, depth) == ConsumeGroup(num, b, depth)
    decreases |b|, 0
  {
    var rest := b[n..];
    var m := ConsumeFieldValueD(tag.num, tag.typ, rest, depth - 1).n;
    GroupStep(num, b, depth, tag, n, m, b[n + m..]);
    DropExtend(b, u, n);
    ConsumeFieldValueExtend(tag.num, tag.typ, rest, u, depth - 1);
    DropExtend(b, u, n + m);
    ConsumeGroupExtend(num, b[n + m..], u, depth);
    GroupStep(num, b + u, depth, tag, n, m, b[n + m..] + u);
  }

  lemma {:induction false} GroupStep(num: nat, b: Bytes, depth: int, tag: Tag, n: nat, m: nat, tail: Bytes)
    requires ConsumeTag(b) == Got(tag, n) && tag.typ != END_GROUP
    requires ConsumeFieldValueD(tag.num, tag.typ, b[n..], depth - 1) == Got((), m)
    requires n + m <= |b| && tail == b[n + m..]
    ensures ConsumeGroup(num, b, depth) == Further(ConsumeGroup(num, tail, depth), n + m)
  {
    hide ConsumeTag, ConsumeFieldValueD, Further;
  }

  lemma ParseFieldExtend(b: Bytes, u: Bytes)
    requires ParseField(b).Got?
    ensures ParseField(b + u) == ParseField(b)
  {
    ConsumeTagExtend(b, u);
    var Got(tag, n) := ConsumeTag(b);
    DropExtend(b, u, n);
    if tag.typ == VARINT {
      ConsumeVarintExtend(b[n..], u, 0);
    } else if tag.typ == BYTES {
      ConsumeBytesExtend(b[n..], u);
    } else {
      ConsumeFieldValueExtend(tag.num, tag.typ, b[n..], u, RECURSION_LIMIT);
    }
  }

  /** A buffer that parses to its end can be continued: the fold carries on with what follows. */
  lemma {:induction false} FoldContinues<T>(b: Bytes, u: Bytes, acc: T, step: (T, Field) -> Option<T>)
    requires Fold(b, acc, step).Some?
    ensures Fold(b + u, acc, step) == Fold(u, Fold(b, acc, step).value, step)
    decreases |b|
  {
    if b == [] {
      assert b + u == u;
    } else {
      ParseFieldExtend(b, u);
      var Got(f, n) := ParseField(b);
      DropExtend(b, u, n);
      FoldContinues(b[n..], u, step(acc, f).value, step);
    }
  }

  /** u is exactly one well-formed field, a group or not. */
  predicate IsField(u: Bytes) { ParseField(u).Got? && ParseField(u).n == |u| }

  /** A field the decoder passes over can be inserted between any two fields without effect. */
  lemma FoldIgnores<T>(b: Bytes, u: Bytes, rest: Bytes, empty: T, step: (T, Field) -> Option<T>)
    requires IsField(u) && Fold(b, empty, step).Some?
    requires var mid := Fold(b, empty, step).value; step(mid, ParseField(u).value) == Some(mid)
    ensures Fold(b + u + rest, empty, step) == Fold(b + rest, empty, step)
  {
    var mid := Fold(b, empty, step).value;
    assert b + u + rest == b + (u + rest);
    FoldContinues(b, u + rest, empty, step);
    FoldContinues(b, rest, empty, step);
    ParseFieldExtend(u, rest);
    assert (u + rest)[|u|..] == rest;
    assert Fold(u + rest, mid, step) == Fold(rest, mid, step);
  }

  /** A field the decoder refuses spoils the input, wherever it stands. */
  lemma FoldRefuses<T>(b: Bytes, u: Bytes, rest: Bytes, empty: T, step: (T, Field) -> Option<T>)
    requires IsField(u) && Fold(b, empty, step).Some?
    requires step(Fold(b, empty, step).value, ParseField(u).value) == None
    ensures Fold(b + u + rest, empty, step) == None
  {
    assert b + u + rest == b + (u + rest);
    FoldContinues(b, u + rest, empty, step);
    ParseFieldExtend(u, rest);
  }

  /** One printed field more. */
  lemma FoldField<T>(b: Bytes, f: Printed, empty: T, step: (T, Field) -> Option<T>)
    requires f.num < 16 && (f.value.Chunk? ==> |f.value.b| <= MAX64 - 20) && Fold(b, empty, step).Some?
    ensures f.value.Number? ==>
              Fold(b + NumberField(f.num * 8, f.value.v), empty, step) == step(Fold(b, empty, step).value, f)
    ensures f.value.Chunk? ==>
              Fold(b + ChunkField(f.num * 8 + 2, f.value.b), empty, step) == step(Fold(b, empty, step).value, f)
  {
    hide ParseField, EncodeField, NumberField, ChunkField;
    var u := EncodeField(f);
    FieldLayout(f);
    FieldSize(f, if f.value.Chunk? then |f.value.b| else 0);
    FoldContinues(b, u, empty, step);
    ParsePrintedField(f, []);
    assert u + [] == u && u[|u|..] == [];
  }

  lemma FieldNoLonger(b: Bytes)
    ensures ParseField(b).Got? && ParseField(b).value.value.Chunk? ==> |ParseField(b).value.value.b| <= |b|
  {
    hide ConsumeVarint, ConsumeFieldValue;
  }

  /** What every step keeps on fields no longer than the input, the whole fold keeps. */
  lemma {:induction false} FoldInvariant<T(!new)>(b: Bytes, acc: T, step: (T, Field) -> Option<T>, inv: T -> bool,
                                              m: nat)
    requires |b| <= m && inv(acc)
    requires forall t: T, f: Field {:trigger step(t, f)} ::
      inv(t) && (f.value.Chunk? ==> |f.value.b| <= m) && step(t, f).Some? ==> inv(step(t, f).value)
    ensures Fold(b, acc, step).Some? ==> inv(Fold(b, acc, step).value)
    decreases |b|
  {
    hide ParseField;
    FieldNoLonger(b);
    if b != [] && ParseField(b).Got? {
      var f, n := ParseField(b).value, ParseField(b).n;
      if step(acc, f).Some? {
        FoldInvariant(b[n..], step(acc, f).value, step, inv, m);
      }
    }
  }
}
