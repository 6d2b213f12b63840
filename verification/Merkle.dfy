/** The Merkle commitment (pkg/state/merkle.go): the level-by-level loop and the tree it computes. */
module Merkle {
  import opened Wrappers
  import opened Machine

  type Hasher = Bytes -> Hash

  function NodeBytes(left: Hash, right: Hash): Bytes { [1] + left + right }

  function Pow2(n: nat): (p: nat)
    ensures p >= 1
  {
    if n == 0 then 1 else 2 * Pow2(n - 1)
  }

  // ----- the tree -----

  /** First half of the leaves under a node of the given height; all of them if they fit in one half. */
  function Left(xs: seq<Hash>, height: nat): (l: seq<Hash>)
    requires height > 0 && 0 < |xs| <= Pow2(height)
    ensures 0 < |l| <= Pow2(height - 1)
  {
    if |xs| <= Pow2(height - 1) then xs else xs[..Pow2(height - 1)]
  }

  /** Second half; a missing second half is the first one again. */
  function Right(xs: seq<Hash>, height: nat): (r: seq<Hash>)
    requires height > 0 && 0 < |xs| <= Pow2(height)
    ensures 0 < |r| <= Pow2(height - 1)
  {
    if |xs| <= Pow2(height - 1) then xs else xs[Pow2(height - 1)..]
  }

  function Tree(h: Hasher, xs: seq<Hash>, height: nat): Hash
    requires 0 < |xs| <= Pow2(height)
    decreases height
  {
    if height == 0 then xs[0]
    else h(NodeBytes(Tree(h, Left(xs, height), height - 1), Tree(h, Right(xs, height), height - 1)))
  }

  /** The least height that holds n leaves. */
  function Height(n: nat): (k: nat)
    requires n > 0
    ensures n <= Pow2(k) && (k > 0 ==> Pow2(k - 1) < n)
  {
    if n == 1 then 0
    else
      var k := Height((n + 1) / 2);
      assert k > 0 ==> Pow2(k) == 2 * Pow2(k - 1);
      k + 1
  }

  function Root(h: Hasher, leaves: seq<Hash>): Hash
    requires |leaves| > 0
  {
    Tree(h, leaves, Height(|leaves|))
  }

  // ----- the loop -----

  /** One level up: neighbours hashed together, an odd last node with itself. */
  function Pairs(h: Hasher, xs: seq<Hash>): (ys: seq<Hash>)
    ensures |ys| == (|xs| + 1) / 2
  {
    if |xs| == 0 then []
    else if |xs| == 1 then [h(NodeBytes(xs[0], xs[0]))]
    else [h(NodeBytes(xs[0], xs[1]))] + Pairs(h, xs[2..])
  }

  lemma {:induction false} PairsMean(h: Hasher, xs: seq<Hash>)
    ensures forall i :: 0 <= i < |Pairs(h, xs)| ==>
        Pairs(h, xs)[i] == h([1] + xs[2 * i] + xs[if 2 * i + 1 < |xs| then 2 * i + 1 else 2 * i])
    decreases |xs|
  {
    if |xs| > 1 {
      PairsMean(h, xs[2..]);
      forall i | 1 <= i < |Pairs(h, xs)|
        ensures Pairs(h, xs)[i] == Pairs(h, xs[2..])[i - 1]
      {
      }
    }
  }

  lemma {:induction false} PairsConcat(h: Hasher, xs: seq<Hash>, ys: seq<Hash>)
    requires |xs| % 2 == 0
    ensures Pairs(h, xs + ys) == Pairs(h, xs) + Pairs(h, ys)
    decreases |xs|
  {
    if |xs| == 0 {
      assert xs + ys == ys;
    } else {
      assert (xs + ys)[2..] == xs[2..] + ys;
      PairsConcat(h, xs[2..], ys);
    }
  }

  /** Pairing commutes with halving. */
  lemma HalvesOfPairs(h: Hasher, xs: seq<Hash>, height: nat)
    requires height > 0 && 0 < |xs| <= Pow2(height + 1)
    ensures 0 < |Pairs(h, xs)| <= Pow2(height)
    ensures Left(Pairs(h, xs), height) == Pairs(h, Left(xs, height + 1))
    ensures Right(Pairs(h, xs), height) == Pairs(h, Right(xs, height + 1))
  {
    var half := Pow2(height);
    assert half == 2 * Pow2(height - 1);
    if |xs| > half {
      PairsConcat(h, xs[..half], xs[half..]);
      assert xs == xs[..half] + xs[half..];
      SplitAt(Pairs(h, xs[..half]), Pairs(h, xs[half..]));
    }
  }

  lemma SplitAt(a: seq<Hash>, b: seq<Hash>)
    ensures (a + b)[..|a|] == a && (a + b)[|a|..] == b
  {
  }

  lemma TreeStep(h: Hasher, xs: seq<Hash>, height: nat)
    requires height > 0 && 0 < |xs| <= Pow2(height)
    ensures Tree(h, xs, height)
         == h(NodeBytes(Tree(h, Left(xs, height), height - 1), Tree(h, Right(xs, height), height - 1)))
  {
  }

  /** Pairing neighbours lowers the tree by one level. */
  lemma {:induction false} TreeOfPairs(h: Hasher, xs: seq<Hash>, height: nat)
    requires 0 < |xs| <= Pow2(height + 1)
    ensures 0 < |Pairs(h, xs)| <= Pow2(height)
    ensures Tree(h, xs, height + 1) == Tree(h, Pairs(h, xs), height)
    decreases height
  {
    if height > 0 {
      TreeOfPairsStep(h, xs, height);
    } else {
      PairsOfTwo(h, xs);
    }
  }

  lemma {:induction false} TreeOfPairsStep(h: Hasher, xs: seq<Hash>, height: nat)
    requires height > 0 && 0 < |xs| <= Pow2(height + 1)
    ensures 0 < |Pairs(h, xs)| <= Pow2(height)
    ensures Tree(h, xs, height + 1) == Tree(h, Pairs(h, xs), height)
    decreases height, 0
  {
    hide Tree, Left, Right, Pairs;
    HalvesOfPairs(h, xs, height);
    TreeOfPairs(h, Left(xs, height + 1), height - 1);
    TreeOfPairs(h, Right(xs, height + 1), height - 1);
    TreeStep(h, xs, height + 1);
    TreeStep(h, Pairs(h, xs), height);
  }

  lemma PairsOfTwo(h: Hasher, xs: seq<Hash>)
    requires 1 <= |xs| <= 2
    ensures Pairs(h, xs) == [Tree(h, xs, 1)]
  {
    assert Pow2(0) == 1 && Pow2(1) == 2;
    var l, r := Left(xs, 1), Right(xs, 1);
    assert Tree(h, l, 0) == l[0] == xs[0];
    assert Tree(h, r, 0) == r[0] == xs[|xs| - 1];
    assert Tree(h, xs, 1) == h(NodeBytes(xs[0], xs[|xs| - 1])) by {
      hide Left, Right, Pow2;
    }
    assert |xs| == 2 ==> Pairs(h, xs[2..]) == [];
  }

  lemma RootOfPairs(h: Hasher, xs: seq<Hash>)
    requires |xs| > 1
    ensures Root(h, xs) == Root(h, Pairs(h, xs))
  {
    hide Tree, Pairs;
    var k := Height(|xs|) - 1;
    assert Height((|xs| + 1) / 2) == k;
    TreeOfPairs(h, xs, k);
  }

  lemma PairsStep(h: Hasher, xs: seq<Hash>, i: nat)
    requires i < |xs|
    ensures Pairs(h, xs[i..])
         == [h(NodeBytes(xs[i], if i + 1 < |xs| then xs[i + 1] else xs[i]))] + Pairs(h, xs[Min(i + 2, |xs|)..])
  {
    var rest := xs[i..];
    if i + 1 < |xs| {
      assert rest[2..] == xs[i + 2..];
    } else {
      assert xs[|xs|..] == [];
    }
  }

  lemma PairsDone(done: seq<Hash>, x: Hash, rest: seq<Hash>, all: seq<Hash>)
    requires done + ([x] + rest) == all
    ensures done + [x] + rest == all
  {
  }

  /** One pass of the inner loop. */
  method NextLevel(h: Hasher, nodes: seq<Hash>) returns (next: seq<Hash>)
    ensures next == Pairs(h, nodes)
    ensures |next| == (|nodes| + 1) / 2
    ensures forall i :: 0 <= i < |next| ==>
        next[i] == h([1] + nodes[2 * i] + nodes[if 2 * i + 1 < |nodes| then 2 * i + 1 else 2 * i])
  {
    hide Pairs;
    PairsMean(h, nodes);
    next := [];
    assert nodes[0..] == nodes;
    var i := 0;
    while i < |nodes|
      invariant 0 <= i <= |nodes| + 1
      invariant next + Pairs(h, nodes[Min(i, |nodes|)..]) == Pairs(h, nodes)
    {
      PairsStep(h, nodes, i);
      var left := nodes[i];
      var right := left;
      if i + 1 < |nodes| {
        right := nodes[i + 1];
      }
      PairsDone(next, h(NodeBytes(left, right)), Pairs(h, nodes[Min(i + 2, |nodes|)..]), Pairs(h, nodes));
      next := next + [h(NodeBytes(left, right))];
      i := i + 2;
    }
    NoPairs(h, nodes);
  }

  lemma NoPairs(h: Hasher, xs: seq<Hash>)
    ensures Pairs(h, xs[|xs|..]) == []
  {
  }

  method MerkleRoot(h: Hasher, leaves: seq<Hash>) returns (root: Option<Hash>)
    ensures root == if |leaves| == 0 then None else Some(Root(h, leaves))
  {
    if |leaves| == 0 {
      return None;
    }
    var nodes := leaves;
    while |nodes| > 1
      invariant |nodes| > 0 && Root(h, nodes) == Root(h, leaves)
      decreases |nodes|
    {
      RootOfPairs(h, nodes);
      nodes := NextLevel(h, nodes);
    }
    return Some(nodes[0]);
  }

  // ----- what the root commits to -----

  /** Everything hashed to build the tree above its leaves. */
  ghost function NodePreimages(h: Hasher, xs: seq<Hash>, height: nat): set<Bytes>
    requires 0 < |xs| <= Pow2(height)
    decreases height
  {
    if height == 0 then {}
    else
      var l, r := Left(xs, height), Right(xs, height);
      {NodeBytes(Tree(h, l, height - 1), Tree(h, r, height - 1))}
      + NodePreimages(h, l, height - 1) + NodePreimages(h, r, height - 1)
  }

  /** No two of these byte strings have the same hash. */
  ghost predicate CollisionFree(h: Hasher, s: set<Bytes>) {
    forall x, y {:trigger h(x), h(y)} :: x in s && y in s && h(x) == h(y) ==> x == y
  }

  /** The leaves as the tree repeats them to fill a whole level. */
  function Expanded(xs: seq<Hash>, height: nat): (ys: seq<Hash>)
    requires 0 < |xs| <= Pow2(height)
    ensures |ys| == Pow2(height)
    decreases height
  {
    if height == 0 then [xs[0]]
    else Expanded(Left(xs, height), height - 1) + Expanded(Right(xs, height), height - 1)
  }

  lemma HalvesStart(xs: seq<Hash>, height: nat, l: seq<Hash>, r: seq<Hash>)
    requires height > 0 && 0 < |xs| <= Pow2(height) && |l| == |r| == Pow2(height - 1)
    requires l[..|Left(xs, height)|] == Left(xs, height) && r[..|Right(xs, height)|] == Right(xs, height)
    ensures (l + r)[..|xs|] == xs
  {
    var half := Pow2(height - 1);
    if |xs| > half {
      assert l == xs[..half];
      assert (l + r)[..|xs|] == l + r[..|xs| - half];
    } else {
      assert (l + r)[..|xs|] == l[..|xs|];
    }
  }

  lemma HalvesWithin(xs: seq<Hash>, height: nat)
    requires height > 0 && 0 < |xs| <= Pow2(height)
    ensures forall y :: y in Left(xs, height) || y in Right(xs, height) ==> y in xs
  {
  }

  lemma ExpandedStep(xs: seq<Hash>, height: nat)
    requires height > 0 && 0 < |xs| <= Pow2(height)
    ensures Expanded(xs, height) == Expanded(Left(xs, height), height - 1) + Expanded(Right(xs, height), height - 1)
  {
  }

  lemma {:induction false} ExpandedMembers(xs: seq<Hash>, height: nat)
    requires 0 < |xs| <= Pow2(height)
    ensures forall y :: y in Expanded(xs, height) ==> y in xs
    decreases height
  {
    if height > 0 {
      hide Left, Right, Expanded;
      ExpandedStep(xs, height);
      ExpandedMembers(Left(xs, height), height - 1);
      ExpandedMembers(Right(xs, height), height - 1);
      HalvesWithin(xs, height);
    }
  }

  lemma LowestExpanded(xs: seq<Hash>)
    requires 0 < |xs| <= Pow2(0)
    ensures Expanded(xs, 0) == xs == Expanded(xs, 0)[..|xs|]
  {
  }

  lemma {:induction false} ExpandedStarts(xs: seq<Hash>, height: nat)
    requires 0 < |xs| <= Pow2(height)
    ensures Expanded(xs, height)[..|xs|] == xs
    decreases height
  {
    hide Left, Right, Expanded;
    if height == 0 {
      LowestExpanded(xs);
    } else {
      var l, r := Left(xs, height), Right(xs, height);
      ExpandedStep(xs, height);
      ExpandedStarts(l, height - 1);
      ExpandedStarts(r, height - 1);
      HalvesStart(xs, height, Expanded(l, height - 1), Expanded(r, height - 1));
    }
  }

  lemma NodeBytesInjective(a: Hash, b: Hash, c: Hash, d: Hash)
    requires NodeBytes(a, b) == NodeBytes(c, d)
    ensures a == c && b == d
  {
    var x, y := NodeBytes(a, b), NodeBytes(c, d);
    assert a == x[1..33] && c == y[1..33] && b == x[33..] && d == y[33..];
  }

  /** The preimages of a tree include its top node's and those of its halves. */
  lemma PreimagesStep(h: Hasher, xs: seq<Hash>, height: nat)
    requires height > 0 && 0 < |xs| <= Pow2(height)
    ensures NodeBytes(Tree(h, Left(xs, height), height - 1), Tree(h, Right(xs, height), height - 1))
              in NodePreimages(h, xs, height)
    ensures NodePreimages(h, Left(xs, height), height - 1) <= NodePreimages(h, xs, height)
    ensures NodePreimages(h, Right(xs, height), height - 1) <= NodePreimages(h, xs, height)
  {
  }

  lemma FewerCollide(h: Hasher, s: set<Bytes>, t: set<Bytes>)
    requires CollisionFree(h, s) && t <= s
    ensures CollisionFree(h, t)
  {
  }

  lemma NodeFixesChildren(h: Hasher, s: set<Bytes>, a: Hash, b: Hash, c: Hash, d: Hash)
    requires CollisionFree(h, s) && NodeBytes(a, b) in s && NodeBytes(c, d) in s
    requires h(NodeBytes(a, b)) == h(NodeBytes(c, d))
    ensures a == c && b == d
  {
    hide NodeBytes;
    NodeBytesInjective(a, b, c, d);
  }

  lemma LowestTree(h: Hasher, xs: seq<Hash>)
    requires 0 < |xs| <= Pow2(0)
    ensures [Tree(h, xs, 0)] == Expanded(xs, 0)
  {
  }

  /** Trees of one height with one root have the same expanded leaves. */
  lemma {:induction false} RootFixesLeaves(h: Hasher, xs: seq<Hash>, ys: seq<Hash>, height: nat)
    requires 0 < |xs| <= Pow2(height) && 0 < |ys| <= Pow2(height)
    requires CollisionFree(h, NodePreimages(h, xs, height) + NodePreimages(h, ys, height))
    requires Tree(h, xs, height) == Tree(h, ys, height)
    ensures Expanded(xs, height) == Expanded(ys, height)
    decreases height
  {
    hide Left, Right, Tree, Expanded, NodePreimages, CollisionFree, NodeBytes;
    if height == 0 {
      LowestTree(h, xs);
      LowestTree(h, ys);
    } else {
      var k, all := height - 1, NodePreimages(h, xs, height) + NodePreimages(h, ys, height);
      var l, r, m, n := Left(xs, height), Right(xs, height), Left(ys, height), Right(ys, height);
      PreimagesStep(h, xs, height);
      PreimagesStep(h, ys, height);
      TreeStep(h, xs, height);
      TreeStep(h, ys, height);
      NodeFixesChildren(h, all, Tree(h, l, k), Tree(h, r, k), Tree(h, m, k), Tree(h, n, k));
      FewerCollide(h, all, NodePreimages(h, l, k) + NodePreimages(h, m, k));
      FewerCollide(h, all, NodePreimages(h, r, k) + NodePreimages(h, n, k));
      RootFixesLeaves(h, l, m, k);
      RootFixesLeaves(h, r, n, k);
      ExpandedStep(xs, height);
      ExpandedStep(ys, height);
    }
  }

  // ----- leaves are hashes of tagged data, so heights cannot be confused -----

  function LeafHashes(h: Hasher, data: seq<Bytes>): (xs: seq<Hash>)
    ensures |xs| == |data| && forall i :: 0 <= i < |data| ==> xs[i] == h(data[i])
  {
    seq(|data|, i requires 0 <= i < |data| => h(data[i]))
  }

  predicate LeafTagged(data: seq<Bytes>) { forall i :: 0 <= i < |data| ==> |data[i]| > 0 && data[i][0] == 0 }

  ghost predicate Distinct(data: seq<Bytes>) { forall i, j :: 0 <= i < j < |data| ==> data[i] != data[j] }

  /** Everything hashed for the root of these leaves. */
  ghost function Preimages(h: Hasher, data: seq<Bytes>): set<Bytes>
    requires |data| > 0
  {
    (set d | d in data) + NodePreimages(h, LeafHashes(h, data), Height(|data|))
  }

  /** x is the hash of one of these leaves, which carry the leaf tag. */
  ghost predicate IsLeaf(h: Hasher, x: Hash, leaves: set<Bytes>) {
    exists d :: d in leaves && d != [] && d[0] == 0 && h(d) == x
  }

  lemma LeafIsNoNode(h: Hasher, x: Hash, leaves: set<Bytes>, a: Hash, b: Hash)
    requires IsLeaf(h, x, leaves) && CollisionFree(h, leaves + {NodeBytes(a, b)})
    ensures x != h(NodeBytes(a, b))
  {
    var d :| d in leaves && d != [] && d[0] == 0 && h(d) == x;
    assert d != NodeBytes(a, b);
  }

  /** A lower tree never has the root of a higher one. */
  lemma {:induction false} HeightsDiffer(h: Hasher, xs: seq<Hash>, m: nat, ys: seq<Hash>, n: nat, leaves: set<Bytes>)
    requires 0 < |xs| <= Pow2(m) && 0 < |ys| <= Pow2(n) && m < n
    requires forall x :: x in xs ==> IsLeaf(h, x, leaves)
    requires CollisionFree(h, leaves + NodePreimages(h, xs, m) + NodePreimages(h, ys, n))
    ensures Tree(h, xs, m) != Tree(h, ys, n)
    decreases m
  {
    hide IsLeaf, Tree, NodePreimages, Left, Right;
    var c, d := Tree(h, Left(ys, n), n - 1), Tree(h, Right(ys, n), n - 1);
    TreeStep(h, ys, n);
    PreimagesStep(h, ys, n);
    if m == 0 {
      TreeOfOne(h, xs);
      LeafIsNoNode(h, xs[0], leaves, c, d);
    } else {
      HalvesWithin(xs, m);
      TreeStep(h, xs, m);
      PreimagesStep(h, xs, m);
      HeightsDiffer(h, Left(xs, m), m - 1, Left(ys, n), n - 1, leaves);
      var a, b := Tree(h, Left(xs, m), m - 1), Tree(h, Right(xs, m), m - 1);
      assert NodeBytes(a, b)[1..33] == a && NodeBytes(c, d)[1..33] == c;
    }
  }

  lemma TreeOfOne(h: Hasher, xs: seq<Hash>)
    requires |xs| == 1
    ensures Tree(h, xs, 0) == xs[0]
  {
  }

  /** A longer list with the same expansion repeats an element. */
  lemma LongerRepeats(xs: seq<Hash>, ys: seq<Hash>, height: nat) returns (j: nat)
    requires 0 < |xs| < |ys| <= Pow2(height)
    requires Expanded(xs, height) == Expanded(ys, height)
    ensures j < |xs| && ys[j] == ys[|xs|]
  {
    hide Expanded;
    ExpandedStarts(xs, height);
    ExpandedStarts(ys, height);
    ExpandedMembers(xs, height);
    j := RepeatIn(Expanded(xs, height), xs, ys);
  }

  lemma RepeatIn(e: seq<Hash>, xs: seq<Hash>, ys: seq<Hash>) returns (j: nat)
    requires |xs| < |ys| <= |e| && e[..|xs|] == xs && e[..|ys|] == ys
    requires forall y :: y in e ==> y in xs
    ensures j < |xs| && ys[j] == ys[|xs|]
  {
    assert e[..|ys|][|xs|] == e[|xs|];
    assert e[|xs|] in xs;
    j :| 0 <= j < |xs| && xs[j] == e[|xs|];
    assert e[..|xs|][j] == e[..|ys|][j];
  }

  lemma PrefixOfExpansion(xs: seq<Hash>, ys: seq<Hash>, height: nat)
    requires 0 < |xs| == |ys| <= Pow2(height) && Expanded(xs, height) == Expanded(ys, height)
    ensures xs == ys
  {
    ExpandedStarts(xs, height);
    ExpandedStarts(ys, height);
  }

  lemma LeavesWithin(h: Hasher, data: seq<Bytes>, leaves: set<Bytes>)
    requires LeafTagged(data) && forall d :: d in data ==> d in leaves
    ensures forall x :: x in LeafHashes(h, data) ==> IsLeaf(h, x, leaves)
  {
    forall x | x in LeafHashes(h, data)
      ensures IsLeaf(h, x, leaves)
    {
      var i :| 0 <= i < |data| && LeafHashes(h, data)[i] == x;
      assert data[i] in leaves;
    }
  }

  lemma RootIsTree(h: Hasher, xs: seq<Hash>)
    requires |xs| > 0
    ensures Root(h, xs) == Tree(h, xs, Height(|xs|))
  {
  }

  /** Different heights, different roots. */
  lemma HeightsAgree(h: Hasher, ds: seq<Bytes>, es: seq<Bytes>)
    requires |ds| > 0 && |es| > 0 && LeafTagged(ds) && LeafTagged(es)
    requires CollisionFree(h, Preimages(h, ds) + Preimages(h, es))
    requires Root(h, LeafHashes(h, ds)) == Root(h, LeafHashes(h, es))
    ensures Height(|ds|) == Height(|es|)
  {
    hide Root, Tree, NodePreimages, IsLeaf;
    RootIsTree(h, LeafHashes(h, ds));
    RootIsTree(h, LeafHashes(h, es));
    var leaves := (set d | d in ds) + (set e | e in es);
    LeavesWithin(h, ds, leaves);
    LeavesWithin(h, es, leaves);
    var m, n := Height(|ds|), Height(|es|);
    if m < n {
      HeightsDiffer(h, LeafHashes(h, ds), m, LeafHashes(h, es), n, leaves);
    } else if n < m {
      HeightsDiffer(h, LeafHashes(h, es), n, LeafHashes(h, ds), m, leaves);
    }
  }

  /** The root of a list of distinct leaves determines the list, its length included. */
  lemma RootDeterminesData(h: Hasher, ds: seq<Bytes>, es: seq<Bytes>)
    requires |ds| > 0 && |es| > 0 && LeafTagged(ds) && LeafTagged(es) && Distinct(ds) && Distinct(es)
    requires CollisionFree(h, Preimages(h, ds) + Preimages(h, es))
    requires Root(h, LeafHashes(h, ds)) == Root(h, LeafHashes(h, es))
    ensures ds == es
  {
    var xs, ys, k := LeafHashes(h, ds), LeafHashes(h, es), Height(|ds|);
    HeightsAgree(h, ds, es);
    RootFixesLeaves(h, xs, ys, k);
    LengthsAgree(h, ds, es, k);
    LengthsAgree(h, es, ds, k);
    PrefixOfExpansion(xs, ys, k);
    forall i | 0 <= i < |ds|
      ensures ds[i] == es[i]
    {
      assert xs[i] == ys[i];
      assert ds[i] in Preimages(h, ds) && es[i] in Preimages(h, es);
    }
  }

  lemma LengthsAgree(h: Hasher, ds: seq<Bytes>, es: seq<Bytes>, k: nat)
    requires 0 < |ds| <= Pow2(k) && 0 < |es| <= Pow2(k) && Distinct(es)
    requires CollisionFree(h, set e | e in es)
    requires Expanded(LeafHashes(h, ds), k) == Expanded(LeafHashes(h, es), k)
    ensures |ds| >= |es|
  {
    if |ds| < |es| {
      var j := LongerRepeats(LeafHashes(h, ds), LeafHashes(h, es), k);
      assert false;
    }
  }
}
