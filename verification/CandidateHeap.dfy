/** The priority heap of candidate transactions: txHeap's own methods driven by container/heap. */
module CandidateHeap {
  import opened Machine
  import opened Types
  import opened Bytewise

  datatype Item = Item(tx: Transaction, cost: uint64, hash: Hash, sender: Address)

  /** Higher cost first, then the smaller hash, compared as hexadecimal text. */
  predicate Before(a: Item, b: Item) {
    if a.cost != b.cost then a.cost > b.cost else LexLess(Hex(a.hash), Hex(b.hash))
  }

  predicate NotAfter(a: Item, b: Item) { !Before(b, a) }

  lemma NotAfterTransitive(a: Item, b: Item, c: Item)
    requires NotAfter(a, b) && NotAfter(b, c)
    ensures NotAfter(a, c)
  {
    if a.cost == b.cost == c.cost {
      LexTrichotomy(Hex(a.hash), Hex(b.hash));
      LexTrichotomy(Hex(b.hash), Hex(c.hash));
      LexTrichotomy(Hex(a.hash), Hex(c.hash));
      if LexLess(Hex(a.hash), Hex(b.hash)) && LexLess(Hex(b.hash), Hex(c.hash)) {
        LexTransitive(Hex(a.hash), Hex(b.hash), Hex(c.hash));
      }
    }
  }

  lemma NotAfterTotal(a: Item, b: Item)
    ensures NotAfter(a, b) || NotAfter(b, a)
  {
    LexTrichotomy(Hex(a.hash), Hex(b.hash));
  }

  /** Items with different hashes are never tied. */
  lemma NotAfterAntisymmetric(a: Item, b: Item)
    requires NotAfter(a, b) && NotAfter(b, a)
    ensures a.hash == b.hash
  {
    HexOrder(a.hash, b.hash);
    HexOrder(b.hash, a.hash);
    LexTrichotomy(a.hash, b.hash);
  }

  /** In plain costs and hashes: the dearer item first, and of two equally dear ones the one with the smaller hash. */
  lemma FirstMeans(a: Item, b: Item)
    ensures NotAfter(a, b) <==> a.cost > b.cost || (a.cost == b.cost && LexLeq(a.hash, b.hash))
  {
    HexOrder(b.hash, a.hash);
  }

  function Parent(j: nat): nat
    requires j > 0
  {
    (j - 1) / 2
  }

  /** Every item but the ones under i comes no earlier than its parent, among the first n. */
  ghost predicate OrderedExcept(h: seq<Item>, n: nat, child: int, parent: int) {
    && n <= |h|
    && forall j {:trigger Parent(j)} :: 0 < j < n && j != child && Parent(j) != parent ==> NotAfter(h[Parent(j)], h[j])
  }

  ghost predicate HeapOrdered(h: seq<Item>) { OrderedExcept(h, |h|, -1, -1) }

  /** Across the exception at i the grandparents still come first. */
  ghost predicate Bridged(h: seq<Item>, n: nat, i: nat) {
    && n <= |h|
    && forall j {:trigger Parent(j)} :: 0 < j < n && Parent(j) == i && i > 0 ==> NotAfter(h[Parent(i)], h[j])
  }

  lemma {:induction false} RootFirst(h: seq<Item>, k: nat)
    requires HeapOrdered(h) && k < |h|
    ensures NotAfter(h[0], h[k])
    decreases k
  {
    NotAfterTotal(h[0], h[0]);
    if k > 0 {
      RootFirst(h, Parent(k));
      NotAfterTransitive(h[0], h[Parent(k)], h[k]);
    }
  }

  function Swapped(h: seq<Item>, i: nat, j: nat): seq<Item>
    requires i < |h| && j < |h|
  {
    h[i := h[j]][j := h[i]]
  }

  class TxHeap {
    var items: seq<Item>

    constructor ()
      ensures items == []
    {
      items := [];
    }

    method Swap(i: nat, j: nat)
      requires i < |items| && j < |items|
      modifies this
      ensures items == Swapped(old(items), i, j)
      ensures multiset(items) == multiset(old(items))
    {
      items := items[i := items[j]][j := items[i]];
    }

    /** container/heap up */
    method Up(start: nat)
      requires start < |items|
      requires OrderedExcept(items, |items|, start, -1) && Bridged(items, |items|, start)
      modifies this
      ensures HeapOrdered(items) && multiset(items) == multiset(old(items))
    {
      var j: nat := start;
      while true
        invariant j < |items| == |old(items)|
        invariant OrderedExcept(items, |items|, j, -1) && Bridged(items, |items|, j)
        invariant multiset(items) == multiset(old(items))
        decreases j
      {
        if j == 0 || !Before(items[j], items[Parent(j)]) {
          break;
        }
        var i := Parent(j);
        ghost var h := items;
        Swap(i, j);
        UpStep(h, j);
        j := i;
      }
    }

    /** container/heap down, on the first n items */
    method Down(start: nat, n: nat)
      requires n <= |items|
      requires OrderedExcept(items, n, -1, start) && Bridged(items, n, start)
      modifies this
      ensures OrderedExcept(items, n, -1, -1) && multiset(items) == multiset(old(items))
      ensures |items| == |old(items)| && items[n..] == old(items[n..])
    {
      var i: nat := start;
      while true
        invariant |items| == |old(items)| && items[n..] == old(items[n..])
        invariant OrderedExcept(items, n, -1, i) && Bridged(items, n, i)
        invariant multiset(items) == multiset(old(items))
        decreases n - i
      {
        var j1: nat := 2 * i + 1;
        if j1 >= n {
          assert forall k {:trigger Parent(k)} :: 0 < k < n ==> Parent(k) != i;
          break;
        }
        var j: nat := j1;
        if j1 + 1 < n && Before(items[j1 + 1], items[j1]) {
          j := j1 + 1;
        }
        FirstChild(items, n, i, j);
        if !Before(items[j], items[i]) {
          ChildrenSettled(items, n, i, j);
          break;
        }
        ghost var h := items;
        Swap(i, j);
        DownStep(h, n, i, j);
        i := j;
      }
    }

    /** heap.Push: append, then up */
    method Push(x: Item)
      requires HeapOrdered(items)
      modifies this
      ensures HeapOrdered(items) && multiset(items) == multiset(old(items)) + multiset{x}
    {
      items := items + [x];
      Up(|items| - 1);
    }

    /** heap.Pop: swap the root to the end, down, and cut the end off */
    method Pop() returns (x: Item)
      requires HeapOrdered(items) && |items| > 0
      modifies this
      ensures HeapOrdered(items) && multiset(items) == multiset(old(items)) - multiset{x}
      ensures x in old(items) && forall y :: y in old(items) ==> NotAfter(x, y)
      ensures forall y :: y in old(items) ==> x.cost > y.cost || (x.cost == y.cost && LexLeq(x.hash, y.hash))
    {
      var n := |items| - 1;
      ghost var h := items;
      RootIsFirst(h);
      Swap(0, n);
      RootMoved(h, n);
      Down(0, n);
      x := items[n];
      LastCut(items, h, n);
      items := items[..n];
      forall y | y in h
        ensures x.cost > y.cost || (x.cost == y.cost && LexLeq(x.hash, y.hash))
      {
        FirstMeans(x, y);
      }
    }
  }

  lemma RootIsFirst(h: seq<Item>)
    requires HeapOrdered(h) && |h| > 0
    ensures forall y :: y in h ==> NotAfter(h[0], y)
  {
    forall y | y in h
      ensures NotAfter(h[0], y)
    {
      var k :| 0 <= k < |h| && h[k] == y;
      RootFirst(h, k);
    }
  }

  lemma RootMoved(h: seq<Item>, n: nat)
    requires HeapOrdered(h) && n == |h| - 1
    ensures OrderedExcept(Swapped(h, 0, n), n, -1, 0) && Bridged(Swapped(h, 0, n), n, 0)
    ensures Swapped(h, 0, n)[n] == h[0]
  {
  }

  lemma LastCut(g: seq<Item>, h: seq<Item>, n: nat)
    requires |g| == |h| == n + 1 && multiset(g) == multiset(h) && g[n..] == Swapped(h, 0, n)[n..]
    requires OrderedExcept(g, n, -1, -1)
    ensures g[n] == h[0] && HeapOrdered(g[..n]) && multiset(g[..n]) == multiset(h) - multiset{g[n]}
  {
    assert g[n..][0] == Swapped(h, 0, n)[n..][0];
    assert g == g[..n] + [g[n]];
  }

  /** Of the children of i, j comes first. */
  lemma FirstChild(h: seq<Item>, n: nat, i: nat, j: nat)
    requires 2 * i + 1 < n <= |h|
    requires j == (if 2 * i + 2 < n && Before(h[2 * i + 2], h[2 * i + 1]) then 2 * i + 2 else 2 * i + 1)
    ensures Parent(j) == i && forall k {:trigger Parent(k)} :: 0 < k < n && Parent(k) == i ==> NotAfter(h[j], h[k])
  {
    NotAfterTotal(h[j], h[j]);
    if 2 * i + 2 < n {
      NotAfterTotal(h[2 * i + 2], h[2 * i + 1]);
    }
    forall k {:trigger Parent(k)} | 0 < k < n && Parent(k) == i
      ensures NotAfter(h[j], h[k])
    {
      assert k == 2 * i + 1 || k == 2 * i + 2;
    }
  }

  lemma UpStep(h: seq<Item>, j: nat)
    requires 0 < j < |h| && Before(h[j], h[Parent(j)])
    requires OrderedExcept(h, |h|, j, -1) && Bridged(h, |h|, j)
    ensures OrderedExcept(Swapped(h, Parent(j), j), |h|, Parent(j), -1)
    ensures Bridged(Swapped(h, Parent(j), j), |h|, Parent(j))
  {
    var i := Parent(j);
    var g := Swapped(h, i, j);
    NotAfterTotal(h[j], h[i]);
    forall k {:trigger Parent(k)} | 0 < k < |h| && k != i
      ensures NotAfter(g[Parent(k)], g[k])
    {
      if k != j && Parent(k) == i {
        NotAfterTransitive(h[j], h[i], h[k]);
      }
    }
    forall k {:trigger Parent(k)} | 0 < k < |h| && Parent(k) == i && i > 0
      ensures NotAfter(g[Parent(i)], g[k])
    {
      if k != j {
        NotAfterTransitive(h[Parent(i)], h[i], h[k]);
      }
    }
  }

  lemma DownStep(h: seq<Item>, n: nat, i: nat, j: nat)
    requires i < j < n <= |h| && Parent(j) == i && Before(h[j], h[i])
    requires OrderedExcept(h, n, -1, i) && Bridged(h, n, i)
    requires forall k {:trigger Parent(k)} :: 0 < k < n && Parent(k) == i ==> NotAfter(h[j], h[k])
    ensures OrderedExcept(Swapped(h, i, j), n, -1, j) && Bridged(Swapped(h, i, j), n, j)
  {
    var g := Swapped(h, i, j);
    NotAfterTotal(h[j], h[i]);
    forall k {:trigger Parent(k)} | 0 < k < n && Parent(k) != j
      ensures NotAfter(g[Parent(k)], g[k])
    {
    }
    forall k {:trigger Parent(k)} | 0 < k < n && Parent(k) == j
      ensures NotAfter(g[Parent(j)], g[k])
    {
    }
  }

  /** Once i comes before its first child it comes before both. */
  lemma ChildrenSettled(h: seq<Item>, n: nat, i: nat, j: nat)
    requires i < j < n <= |h| && Parent(j) == i && NotAfter(h[i], h[j])
    requires OrderedExcept(h, n, -1, i)
    requires forall k {:trigger Parent(k)} :: 0 < k < n && Parent(k) == i ==> NotAfter(h[j], h[k])
    ensures OrderedExcept(h, n, -1, -1)
  {
    forall k {:trigger Parent(k)} | 0 < k < n
      ensures NotAfter(h[Parent(k)], h[k])
    {
      if Parent(k) == i {
        NotAfterTransitive(h[i], h[j], h[k]);
      }
    }
  }
}
