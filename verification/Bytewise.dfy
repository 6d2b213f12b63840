/** Byte-by-byte string comparison, as Go's `<` on strings, and hexadecimal text. */
module Bytewise {
  import opened Machine

  predicate LexLess(a: Bytes, b: Bytes) {
    if b == [] then false
    else if a == [] then true
    else a[0] < b[0] || (a[0] == b[0] && LexLess(a[1..], b[1..]))
  }

  predicate LexLeq(a: Bytes, b: Bytes) { !LexLess(b, a) }

  /** Where a turns out smaller than b: at the end of a, or where a has the smaller byte after a common prefix. */
  predicate SmallerAt(a: Bytes, b: Bytes, i: nat) {
    i <= |a| && i < |b| && a[..i] == b[..i] && (i == |a| || a[i] < b[i])
  }

  lemma {:induction false} SmallerSomewhere(a: Bytes, b: Bytes) returns (i: nat)
    requires LexLess(a, b)
    ensures SmallerAt(a, b, i)
    decreases |a|
  {
    i := 0;
    if a != [] && a[0] == b[0] {
      var j := SmallerSomewhere(a[1..], b[1..]);
      i := j + 1;
      assert a[..i] == [a[0]] + a[1..][..j] && b[..i] == [b[0]] + b[1..][..j];
    }
  }

  lemma {:induction false} SmallerIsLess(a: Bytes, b: Bytes, i: nat)
    requires SmallerAt(a, b, i)
    ensures LexLess(a, b)
    decreases i
  {
    if i > 0 {
      assert a[0] == a[..i][0] && b[0] == b[..i][0];
      assert a[1..][..i - 1] == a[..i][1..] && b[1..][..i - 1] == b[..i][1..];
      SmallerIsLess(a[1..], b[1..], i - 1);
    }
  }

  /** The order is that of the first byte in which two strings differ, a proper prefix being smaller. */
  lemma LexMeans(a: Bytes, b: Bytes)
    ensures LexLess(a, b) <==> exists i: nat :: SmallerAt(a, b, i)
  {
    hide LexLess, SmallerAt;
    if LexLess(a, b) {
      var i := SmallerSomewhere(a, b);
    }
    if i: nat :| SmallerAt(a, b, i) {
      SmallerIsLess(a, b, i);
    }
  }

  lemma {:induction false} LexTrichotomy(a: Bytes, b: Bytes)
    ensures LexLess(a, b) || LexLess(b, a) || a == b
    ensures !(LexLess(a, b) && LexLess(b, a))
    ensures LexLess(a, b) || LexLess(b, a) ==> a != b
    decreases |a|
  {
    if a != [] && b != [] {
      LexTrichotomy(a[1..], b[1..]);
      assert a == [a[0]] + a[1..] && b == [b[0]] + b[1..];
    }
  }

  lemma {:induction false} LexTransitive(a: Bytes, b: Bytes, c: Bytes)
    requires LexLess(a, b) && LexLess(b, c)
    ensures LexLess(a, c)
    decreases |a|
  {
    if a != [] && a[0] == b[0] == c[0] {
      LexTransitive(a[1..], b[1..], c[1..]);
    }
  }

  /** `<=` is `<` or equality, and a total order. */
  lemma LexOrder(a: Bytes, b: Bytes)
    ensures LexLeq(a, b) <==> LexLess(a, b) || a == b
    ensures LexLeq(a, b) || LexLeq(b, a)
    ensures LexLeq(a, b) && LexLeq(b, a) ==> a == b
  {
    LexTrichotomy(a, b);
  }

  lemma LexLeqTransitive(a: Bytes, b: Bytes, c: Bytes)
    requires LexLeq(a, b) && LexLeq(b, c)
    ensures LexLeq(a, c)
  {
    LexOrder(a, b);
    LexOrder(b, c);
    LexOrder(a, c);
    if LexLess(a, b) && LexLess(b, c) {
      LexTransitive(a, b, c);
    }
  }

  /** A common prefix does not matter. */
  lemma {:induction false} LexPrefix(p: Bytes, a: Bytes, b: Bytes)
    ensures LexLess(p + a, p + b) <==> LexLess(a, b)
    decreases |p|
  {
    if p == [] {
      assert p + a == a && p + b == b;
    } else {
      assert (p + a)[1..] == p[1..] + a && (p + b)[1..] == p[1..] + b;
      LexPrefix(p[1..], a, b);
    }
  }

  function HexDigit(d: int): uint8
    requires 0 <= d < 16
  {
    if d < 10 then 48 + d else 87 + d
  }

  /** `%x` of a byte string. */
  function Hex(b: Bytes): Bytes {
    if b == [] then [] else [HexDigit(b[0] / 16), HexDigit(b[0] % 16)] + Hex(b[1..])
  }

  /** Comparing hashes as hexadecimal text is comparing them as bytes. */
  lemma {:induction false} HexOrder(a: Bytes, b: Bytes)
    requires |a| == |b|
    ensures LexLess(Hex(a), Hex(b)) <==> LexLess(a, b)
    decreases |a|
  {
    if a != [] {
      HexOrder(a[1..], b[1..]);
      var x, y := Hex(a), Hex(b);
      assert x[1..][1..] == Hex(a[1..]) && y[1..][1..] == Hex(b[1..]);
      assert LexLess(x, y) <==> x[0] < y[0] || (x[0] == y[0] && LexLess(x[1..], y[1..]));
      assert LexLess(x[1..], y[1..]) <==> x[1] < y[1] || (x[1] == y[1] && LexLess(x[1..][1..], y[1..][1..]));
    }
  }
}
