/** The timestamp window as stored bytes (pkg/state/store.go): a 4-byte count, then 8 bytes each, big-endian. */
module TimestampCodec {
  import opened Wrappers
  import opened Machine

  function Pow256(n: nat): nat { if n == 0 then 1 else 256 * Pow256(n - 1) }

  lemma Pow256Values()
    ensures Pow256(4) == TWO32 && Pow256(8) == TWO64
  {
    assert Pow256(2) == 0x1_0000;
    assert Pow256(4) == 256 * (256 * Pow256(2));
    assert Pow256(6) == 256 * (256 * Pow256(4));
    assert Pow256(8) == 256 * (256 * Pow256(6));
  }

  /** The n low-order bytes of v, most significant first. */
  function BigEndian(v: nat, n: nat): (b: Bytes)
    ensures |b| == n
  {
    if n == 0 then [] else BigEndian(v / 256, n - 1) + [v % 256]
  }

  function FromBigEndian(b: Bytes): (v: nat)
    ensures v < Pow256(|b|)
  {
    if b == [] then 0 else FromBigEndian(b[..|b| - 1]) * 256 + b[|b| - 1]
  }

  lemma {:induction false} BigEndianRoundTrip(v: nat, n: nat)
    requires v < Pow256(n)
    ensures FromBigEndian(BigEndian(v, n)) == v
    decreases n
  {
    if n > 0 {
      BigEndianRoundTrip(v / 256, n - 1);
      assert BigEndian(v, n)[..n - 1] == BigEndian(v / 256, n - 1);
    }
  }

  /** The digits' weights fall from the first byte to the last. */
  lemma {:induction false} BigEndianMeans(v: nat, n: nat)
    requires v < Pow256(n)
    ensures v == Weighted(BigEndian(v, n))
    decreases n
  {
    if n > 0 {
      var high := BigEndian(v / 256, n - 1);
      BigEndianMeans(v / 256, n - 1);
      WeightedSnoc(high, v % 256);
    }
  }

  /** The sum of the bytes, the k-th times 256 to the number of bytes after it. */
  function Weighted(b: Bytes): nat {
    if b == [] then 0 else b[0] * Pow256(|b| - 1) + Weighted(b[1..])
  }

  lemma {:induction false} WeightedSnoc(b: Bytes, x: uint8)
    ensures Weighted(b + [x]) == 256 * Weighted(b) + x
    decreases |b|
  {
    if b != [] {
      assert (b + [x])[1..] == b[1..] + [x];
      WeightedSnoc(b[1..], x);
      assert b[0] * Pow256(|b|) == 256 * (b[0] * Pow256(|b| - 1));
    }
  }

  function Count32(n: nat): Bytes { BigEndian(n % TWO32, 4) }

  function EntryBytes(t: int64): Bytes { BigEndian(ToUnsigned(t), 8) }

  function Entries(ts: seq<int64>): (b: Bytes)
    ensures |b| == 8 * |ts|
  {
    if ts == [] then [] else Entries(ts[..|ts| - 1]) + EntryBytes(ts[|ts| - 1])
  }

  function WindowBytes(ts: seq<int64>): Bytes { Count32(|ts|) + Entries(ts) }

  function ReadUint64(b: Bytes): uint64
    requires |b| == 8
  {
    Pow256Values();
    FromBigEndian(b)
  }

  function EntryAt(b: Bytes, i: nat): int64
    requires 12 + 8 * i <= |b|
  {
    ToSigned(ReadUint64(b[4 + 8 * i..12 + 8 * i]))
  }

  function EntriesOf(b: Bytes, n: nat): seq<int64>
    requires 4 + 8 * n <= |b|
  {
    seq(n, i requires 0 <= i < n => EntryAt(b, i))
  }

  function DecodeWindow(b: Bytes): Option<seq<int64>> {
    if |b| < 4 then None
    else
      var n := FromBigEndian(b[..4]);
      if |b| - 4 < n * 8 then None
      else Some(EntriesOf(b, n))
  }

  method EncodeTimestamps(ts: seq<int64>) returns (buf: Bytes)
    ensures buf == WindowBytes(ts)
  {
    buf := Count32(|ts|);
    for i := 0 to |ts|
      invariant buf == Count32(|ts|) + Entries(ts[..i])
    {
      assert ts[..i + 1][..i] == ts[..i];
      buf := buf + EntryBytes(ts[i]);
    }
    assert ts[..|ts|] == ts;
  }

  method DecodeTimestamps(bytes: Bytes) returns (r: Option<seq<int64>>)
    ensures r == DecodeWindow(bytes)
  {
    if |bytes| < 4 {
      return None;
    }
    var n := FromBigEndian(bytes[..4]);
    var b := bytes[4..];
    if |b| < n * 8 {
      return None;
    }
    var out := [];
    for i := 0 to n
      invariant |out| == i
      invariant forall k :: 0 <= k < i ==> out[k] == EntryAt(bytes, k)
    {
      assert b[8 * i..8 * i + 8] == bytes[4 + 8 * i..12 + 8 * i];
      out := out + [ToSigned(ReadUint64(b[8 * i..8 * i + 8]))];
    }
    assert out == DecodeWindow(bytes).value;
    return Some(out);
  }

  lemma {:induction false} EntryStored(ts: seq<int64>, i: nat)
    requires i < |ts|
    ensures Entries(ts)[8 * i..8 * i + 8] == EntryBytes(ts[i])
    decreases |ts|
  {
    var init := ts[..|ts| - 1];
    if i < |ts| - 1 {
      EntryStored(init, i);
      assert Entries(ts)[8 * i..8 * i + 8] == Entries(init)[8 * i..8 * i + 8];
    }
  }

  lemma EntryDecodes(ts: seq<int64>, i: nat)
    requires i < |ts|
    ensures EntryAt(WindowBytes(ts), i) == ts[i]
  {
    EntryPlace(ts, i);
    Pow256Values();
    BigEndianRoundTrip(ToUnsigned(ts[i]), 8);
    SignedRoundTrip(ts[i]);
  }

  lemma EntriesDecode(ts: seq<int64>)
    ensures EntriesOf(WindowBytes(ts), |ts|) == ts
  {
    forall i | 0 <= i < |ts|
      ensures EntriesOf(WindowBytes(ts), |ts|)[i] == ts[i]
    {
      EntryDecodes(ts, i);
    }
  }

  lemma CountRoundTrip(n: nat)
    requires n < TWO32
    ensures FromBigEndian(Count32(n)) == n
  {
    Pow256Values();
    var width := 4;
    assert n % TWO32 == n;
    BigEndianRoundTrip(n, width);
  }

  lemma CountDecodes(ts: seq<int64>)
    requires |ts| < TWO32
    ensures FromBigEndian(WindowBytes(ts)[..4]) == |ts|
  {
    var count := Count32(|ts|);
    assert WindowBytes(ts)[..4] == count;
    CountRoundTrip(|ts|);
  }

  /** A stored window byte by byte: a 4-byte count, then 8 bytes for each time modulo 2^64. */
  lemma WindowLayout(ts: seq<int64>)
    requires |ts| < TWO32
    ensures |WindowBytes(ts)| == 4 + 8 * |ts| && Weighted(WindowBytes(ts)[..4]) == |ts|
    ensures forall i :: 0 <= i < |ts| ==> Weighted(WindowBytes(ts)[4 + 8 * i..12 + 8 * i]) == ts[i] % TWO64
  {
    hide Entries, BigEndian, Weighted;
    var b := WindowBytes(ts);
    Pow256Values();
    assert b[..4] == Count32(|ts|);
    BigEndianMeans(|ts|, 4);
    forall i | 0 <= i < |ts|
      ensures Weighted(b[4 + 8 * i..12 + 8 * i]) == ts[i] % TWO64
    {
      EntryPlace(ts, i);
      BigEndianMeans(ts[i] % TWO64, 8);
    }
  }

  lemma EntryPlace(ts: seq<int64>, i: nat)
    requires i < |ts|
    ensures WindowBytes(ts)[4 + 8 * i..12 + 8 * i] == EntryBytes(ts[i])
  {
    var entries := Entries(ts);
    assert WindowBytes(ts)[4 + 8 * i..12 + 8 * i] == entries[8 * i..8 * i + 8];
    EntryStored(ts, i);
  }

  lemma {:induction false} FromBigEndianMeans(b: Bytes)
    ensures FromBigEndian(b) == Weighted(b)
    decreases |b|
  {
    if b != [] {
      var high, low := b[..|b| - 1], b[|b| - 1];
      FromBigEndianMeans(high);
      WeightedSnoc(high, low);
      assert b == high + [low];
    }
  }

  /** What any bytes decode to: the counted entries, modulo 2^64, or an error when they are not all there. */
  lemma WindowReads(b: Bytes)
    ensures DecodeWindow(b).Some? <==> |b| >= 4 && 4 + 8 * Weighted(b[..4]) <= |b|
    ensures DecodeWindow(b).Some? ==>
              var ts := DecodeWindow(b).value;
              && |ts| == Weighted(b[..4])
              && forall i :: 0 <= i < |ts| ==> ts[i] % TWO64 == Weighted(b[4 + 8 * i..12 + 8 * i])
  {
    hide Weighted, FromBigEndian;
    if |b| >= 4 {
      FromBigEndianMeans(b[..4]);
    }
    if DecodeWindow(b).Some? {
      forall i | 0 <= i < |DecodeWindow(b).value|
        ensures DecodeWindow(b).value[i] % TWO64 == Weighted(b[4 + 8 * i..12 + 8 * i])
      {
        FromBigEndianMeans(b[4 + 8 * i..12 + 8 * i]);
        Pow256Values();
      }
    }
  }

  /** A window the store wrote is the window it reads back. */
  lemma WindowRoundTrip(ts: seq<int64>)
    requires |ts| < TWO32
    ensures DecodeWindow(WindowBytes(ts)) == Some(ts)
  {
    CountDecodes(ts);
    EntriesDecode(ts);
  }
}
