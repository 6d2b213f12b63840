/** The graph of state versions: its frontier and its pruning (pkg/state/dag.go). */
module StateDag {
  import opened Machine
  import opened Sorting

  datatype StateNode = StateNode(rootHash: Hash, parents: seq<Hash>, height: uint64)

  type Nodes = map<Hash, StateNode>
  type Links = map<Hash, seq<Hash>>

  /** The three fields of a DAG as one value. */
  datatype Graph = Graph(nodes: Nodes, children: Links, tips: seq<Hash>)

  const EMPTY_GRAPH := Graph(map[], map[], [])

  function ChildrenOf(children: Links, h: Hash): seq<Hash> { if h in children then children[h] else [] }

  // ----- adding a node -----

  function Repeat(h: Hash, n: nat): (s: seq<Hash>)
    ensures |s| == n && forall i :: 0 <= i < n ==> s[i] == h
  {
    seq(n, _ => h)
  }

  /** Each parent's list has gained h as often as h names it; nothing else has changed. */
  ghost predicate Linked(before: Links, parents: seq<Hash>, h: Hash, after: Links) {
    && after.Keys == before.Keys + (set p | p in parents)
    && forall p {:trigger ChildrenOf(after, p)} ::
         ChildrenOf(after, p) == ChildrenOf(before, p) + Repeat(h, Times(parents, p))
  }

  function Link(links: Links, p: Hash, h: Hash): Links { links[p := ChildrenOf(links, p) + [h]] }

  /** How often h names p as a parent. */
  function Times(parents: seq<Hash>, p: Hash): (n: nat)
    ensures n > 0 <==> p in parents
  {
    if parents == [] then 0
    else
      var init, last := parents[..|parents| - 1], parents[|parents| - 1];
      assert parents == init + [last];
      Times(init, p) + if last == p then 1 else 0
  }

  lemma RepeatMore(h: Hash, n: nat)
    ensures Repeat(h, n) + [h] == Repeat(h, n + 1)
  {
  }

  lemma TimesMore(parents: seq<Hash>, p: Hash, q: Hash)
    ensures Times(parents + [p], q) == Times(parents, q) + if p == q then 1 else 0
  {
    assert (parents + [p])[..|parents|] == parents;
  }

  lemma LinkedAt(links: Links, p: Hash, h: Hash, q: Hash, kids: seq<Hash>, parents: seq<Hash>)
    requires ChildrenOf(links, q) == kids + Repeat(h, Times(parents, q))
    ensures ChildrenOf(Link(links, p, h), q) == kids + Repeat(h, Times(parents + [p], q))
  {
    hide Times, Repeat;
    TimesMore(parents, p, q);
    if p == q {
      var n := Times(parents, q);
      RepeatMore(h, n);
      assert kids + Repeat(h, n) + [h] == kids + (Repeat(h, n) + [h]);
    }
  }

  lemma LinkedOne(before: Links, parents: seq<Hash>, i: nat, h: Hash, links: Links)
    requires i < |parents| && Linked(before, parents[..i], h, links)
    ensures Linked(before, parents[..i + 1], h, Link(links, parents[i], h))
  {
    hide Repeat, Link, Times;
    var p, some, more := parents[i], parents[..i], parents[..i + 1];
    assert more == some + [p];
    forall q
      ensures ChildrenOf(Link(links, p, h), q) == ChildrenOf(before, q) + Repeat(h, Times(more, q))
    {
      LinkedAt(links, p, h, q, ChildrenOf(before, q), some);
    }
    assert Link(links, p, h).Keys == links.Keys + {p} by {
      LinkKeys(links, p, h);
    }
  }

  lemma LinkKeys(links: Links, p: Hash, h: Hash)
    ensures Link(links, p, h).Keys == links.Keys + {p}
  {
  }

  function Without(tips: seq<Hash>, parents: seq<Hash>): (rest: seq<Hash>)
    ensures forall h :: h in rest <==> h in tips && h !in parents
    ensures NoDuplicates(tips) ==> NoDuplicates(rest)
  {
    if tips == [] then []
    else
      var init, last := tips[..|tips| - 1], tips[|tips| - 1];
      assert tips == init + [last];
      Without(init, parents) + if last in parents then [] else [last]
  }

  lemma WithoutNone(parents: seq<Hash>)
    ensures Without([], parents) == []
  {
  }

  lemma WithoutMore(tips: seq<Hash>, i: nat, parents: seq<Hash>)
    requires i < |tips|
    ensures Without(tips[..i + 1], parents)
        == Without(tips[..i], parents) + (if tips[i] in parents then [] else [tips[i]])
  {
    assert tips[..i + 1][..i] == tips[..i];
  }

  ghost predicate Added(g: Graph, node: StateNode, after: Graph) {
    && node.rootHash !in g.nodes
    && after.nodes == g.nodes[node.rootHash := node]
    && Linked(g.children, node.parents, node.rootHash, after.children)
    && after.tips == Without(g.tips, node.parents) + [node.rootHash]
  }

  // ----- reachability -----

  ghost predicate IsPath(children: Links, path: seq<Hash>) {
    |path| > 0 && forall i {:trigger path[i + 1]} :: 0 <= i < |path| - 1 ==>
      path[i + 1] in ChildrenOf(children, path[i])
  }

  ghost predicate Connects(children: Links, path: seq<Hash>, a: Hash, b: Hash) {
    IsPath(children, path) && path[0] == a && path[|path| - 1] == b
  }

  /** b can be reached from a along child edges. */
  ghost predicate Reaches(children: Links, a: Hash, b: Hash) { exists path :: Connects(children, path, a, b) }

  ghost predicate Closed(children: Links, s: set<Hash>) {
    forall x, c {:trigger x in s, c in ChildrenOf(children, x)} :: x in s && c in ChildrenOf(children, x) ==> c in s
  }

  lemma ReachesSelf(children: Links, a: Hash)
    ensures Reaches(children, a, a)
  {
    assert Connects(children, [a], a, a);
  }

  lemma ReachesVia(children: Links, a: Hash, c: Hash, b: Hash)
    requires c in ChildrenOf(children, a) && Reaches(children, c, b)
    ensures Reaches(children, a, b)
  {
    var path :| Connects(children, path, c, b);
    var longer := [a] + path;
    forall i {:trigger longer[i + 1]} | 0 <= i < |longer| - 1
      ensures longer[i + 1] in ChildrenOf(children, longer[i])
    {
      if i > 0 {
        var j := i - 1;
        assert path[j + 1] in ChildrenOf(children, path[j]);
      }
    }
    assert Connects(children, longer, a, b);
  }

  lemma ReachesNext(children: Links, a: Hash, b: Hash, c: Hash)
    requires Reaches(children, a, b) && c in ChildrenOf(children, b)
    ensures Reaches(children, a, c)
  {
    var path :| Connects(children, path, a, b);
    var longer := path + [c];
    forall i {:trigger longer[i + 1]} | 0 <= i < |longer| - 1
      ensures longer[i + 1] in ChildrenOf(children, longer[i])
    {
      if i < |path| - 1 {
        assert path[i + 1] in ChildrenOf(children, path[i]);
      }
    }
    assert Connects(children, longer, a, c);
  }

  /** Nothing leads out of a closed set. */
  lemma {:induction false} ClosedHoldsPath(children: Links, s: set<Hash>, path: seq<Hash>, k: nat)
    requires IsPath(children, path) && path[0] in s && Closed(children, s) && k < |path|
    ensures path[k] in s
    decreases k
  {
    if k > 0 {
      var j := k - 1;
      ClosedHoldsPath(children, s, path, j);
      assert path[j + 1] in ChildrenOf(children, path[j]);
    }
  }

  lemma ClosedHoldsReachable(children: Links, s: set<Hash>, a: Hash, b: Hash)
    requires a in s && Closed(children, s) && Reaches(children, a, b)
    ensures b in s
  {
    var path :| Connects(children, path, a, b);
    ClosedHoldsPath(children, s, path, |path| - 1);
  }

  // ----- pruning -----

  /**
   * What is kept for finalRoot: the nodes it reaches and their child lists, and the lists
   * under hashes that are no nodes; as tips the kept nodes with a parent and no child.
   */
  ghost predicate PrunedTo(g: Graph, finalRoot: Hash, after: Graph) {
    && after.nodes == KeptNodes(g, finalRoot)
    && after.children == KeptLinks(g, finalRoot)
    && NoDuplicates(after.tips)
    && forall h :: h in after.tips <==>
      h in after.nodes && after.nodes[h].parents != [] && ChildrenOf(after.children, h) == []
  }

  ghost function KeptNodes(g: Graph, finalRoot: Hash): Nodes {
    map h | h in g.nodes && Reaches(g.children, finalRoot, h) :: g.nodes[h]
  }

  ghost function KeptLinks(g: Graph, finalRoot: Hash): Links {
    map h | h in g.children && (h !in g.nodes || Reaches(g.children, finalRoot, h)) :: g.children[h]
  }

  /** The entries left while the known keys outside todo and seen have been removed. */
  function Restrict<T>(m: map<Hash, T>, known: set<Hash>, todo: set<Hash>, seen: set<Hash>): map<Hash, T> {
    map h | h in m && (h !in known || h in todo || h in seen) :: m[h]
  }

  lemma RestrictAll<T>(m: map<Hash, T>, known: set<Hash>, todo: set<Hash>, seen: set<Hash>)
    requires known <= todo
    ensures Restrict(m, known, todo, seen) == m
  {
  }

  lemma RestrictLess<T>(m: map<Hash, T>, known: set<Hash>, todo: set<Hash>, seen: set<Hash>, h: Hash)
    requires h in todo && todo <= known
    ensures var was := Restrict(m, known, todo, seen);
      Restrict(m, known, todo - {h}, seen) == if h in seen then was else was - {h}
  {
  }

  lemma RestrictIs<T>(m: map<Hash, T>, known: set<Hash>, seen: set<Hash>)
    ensures Restrict(m, known, {}, seen) == map h | h in m && (h !in known || h in seen) :: m[h]
    ensures known == m.Keys ==> Restrict(m, known, {}, seen) == map h | h in m && h in seen :: m[h]
  {
  }

  class DAG {
    var nodes: Nodes
    var children: Links
    var tips: seq<Hash>

    constructor ()
      ensures Value() == EMPTY_GRAPH
    {
      nodes := map[];
      children := map[];
      tips := [];
    }

    function Value(): Graph
      reads this
    {
      Graph(nodes, children, tips)
    }

    method AddNode(node: StateNode) returns (ok: bool)
      modifies this
      ensures ok == (node.rootHash !in old(nodes))
      ensures if ok then Added(old(Value()), node, Value()) else Value() == old(Value())
    {
      hide Linked;
      if node.rootHash in nodes {
        return false;
      }
      nodes := nodes[node.rootHash := node];
      LinkedNone(children, node.rootHash);
      for i := 0 to |node.parents|
        invariant Linked(old(children), node.parents[..i], node.rootHash, children)
        invariant tips == old(tips) && nodes == old(nodes)[node.rootHash := node]
      {
        LinkedOne(old(children), node.parents, i, node.rootHash, children);
        var parent := node.parents[i];
        children := Link(children, parent, node.rootHash);
      }
      assert node.parents[..|node.parents|] == node.parents;
      UpdateTips(node.rootHash, node.parents);
      ok := true;
    }

    method UpdateTips(newNode: Hash, parents: seq<Hash>)
      modifies this`tips
      ensures tips == Without(old(tips), parents) + [newNode]
    {
      hide Without;
      WithoutNone(parents);
      var parentSet := set p | p in parents;
      var next := [];
      for i := 0 to |tips|
        invariant tips == old(tips) && next == Without(tips[..i], parents)
      {
        WithoutMore(tips, i, parents);
        if tips[i] !in parentSet {
          next := next + [tips[i]];
        }
      }
      assert tips[..|tips|] == tips;
      tips := next + [newNode];
    }

    /** The recursive closure of PruneNonFinal: marks what h leads to, beyond what is already marked. */
    static method Walk(children: Links, h: Hash, seen: set<Hash>, ghost all: set<Hash>) returns (now: set<Hash>)
      requires forall p, c {:trigger c in ChildrenOf(children, p)} :: c in ChildrenOf(children, p) ==> c in all
      requires seen <= all
      ensures Marked(children, h, seen, now, |ChildrenOf(children, h)|) && now <= all
      decreases all - seen
    {
      hide Reaches;
      var kids := ChildrenOf(children, h);
      now := seen;
      for i := 0 to |kids|
        invariant now <= all && Marked(children, h, seen, now, i)
      {
        var child := kids[i];
        assert child in kids;
        if child !in now {
          ghost var before := now;
          now := Walk(children, child, now + {child}, all);
          MarkedMore(children, h, seen, before, child, now, i);
        }
      }
    }

    method PruneNonFinal(finalRoot: Hash)
      modifies this
      ensures PrunedTo(old(Value()), finalRoot, Value())
    {
      hide Reaches, Marked;
      ghost var all := AllHashes(children, finalRoot);
      var seen := Walk(children, finalRoot, {finalRoot}, all);
      forall h
        ensures h in seen <==> Reaches(children, finalRoot, h)
      {
        MarkedIsReachable(children, finalRoot, seen, h);
      }
      DropUnseen(seen);
      assert nodes == KeptNodes(old(Value()), finalRoot);
      assert children == KeptLinks(old(Value()), finalRoot);
      RecomputeTips();
    }

    /** First loop of PruneNonFinal after the marking. */
    method DropUnseen(seen: set<Hash>)
      modifies this`nodes, this`children
      ensures nodes == map h | h in old(nodes) && h in seen :: old(nodes)[h]
      ensures children == map h | h in old(children) && (h !in old(nodes) || h in seen) :: old(children)[h]
    {
      hide Restrict;
      var todo := nodes.Keys;
      ghost var known := nodes.Keys;
      RestrictAll(nodes, known, todo, seen);
      RestrictAll(children, known, todo, seen);
      while todo != {}
        invariant todo <= known
        invariant nodes == Restrict(old(nodes), known, todo, seen)
        invariant children == Restrict(old(children), known, todo, seen)
      {
        var h :| h in todo;
        RestrictLess(old(nodes), known, todo, seen, h);
        RestrictLess(old(children), known, todo, seen, h);
        todo := todo - {h};
        if h !in seen {
          nodes := nodes - {h};
          children := children - {h};
        }
      }
      RestrictIs(old(nodes), known, seen);
      RestrictIs(old(children), known, seen);
    }

    /** Last loop of PruneNonFinal. */
    method RecomputeTips()
      modifies this`tips
      ensures NoDuplicates(tips)
      ensures forall h :: h in tips <==> h in nodes && nodes[h].parents != [] && ChildrenOf(children, h) == []
    {
      tips := [];
      var todo := nodes.Keys;
      while todo != {}
        invariant todo <= nodes.Keys && NoDuplicates(tips)
        invariant forall h :: h in tips <==>
                    h in nodes && h !in todo && nodes[h].parents != [] && ChildrenOf(children, h) == []
      {
        var h :| h in todo;
        todo := todo - {h};
        if |nodes[h].parents| == 0 {
          continue;
        }
        if |ChildrenOf(children, h)| == 0 {
          tips := tips + [h];
        }
      }
    }
  }

  lemma LinkedNone(children: Links, h: Hash)
    ensures Linked(children, [], h, children)
  {
    assert forall p :: ChildrenOf(children, p) + Repeat(h, 0) == ChildrenOf(children, p);
  }

  /** now adds to seen only what h reaches, with all children of what it adds and the first i of h. */
  ghost predicate Marked(children: Links, h: Hash, seen: set<Hash>, now: set<Hash>, i: nat)
    requires i <= |ChildrenOf(children, h)|
  {
    && seen <= now
    && (forall k :: 0 <= k < i ==> ChildrenOf(children, h)[k] in now)
    && (forall x :: x in now - seen ==> Reaches(children, h, x))
    && (forall x, c {:trigger x in now, c in ChildrenOf(children, x)} ::
         x in now - seen && c in ChildrenOf(children, x) ==> c in now)
  }

  lemma MarkedMore(children: Links, h: Hash, seen: set<Hash>, before: set<Hash>, child: Hash, now: set<Hash>, i: nat)
    requires i < |ChildrenOf(children, h)| && child == ChildrenOf(children, h)[i]
    requires Marked(children, h, seen, before, i)
    requires Marked(children, child, before + {child}, now, |ChildrenOf(children, child)|)
    ensures Marked(children, h, seen, now, i + 1)
  {
    hide Reaches;
    ReachesSelf(children, child);
    forall x | x in now - seen
      ensures Reaches(children, h, x)
    {
      if x !in before {
        ReachesVia(children, h, child, x);
      }
    }
  }

  lemma MarkedIsReachable(children: Links, finalRoot: Hash, seen: set<Hash>, h: Hash)
    requires Marked(children, finalRoot, {finalRoot}, seen, |ChildrenOf(children, finalRoot)|)
    ensures h in seen <==> Reaches(children, finalRoot, h)
  {
    hide Reaches;
    ReachesSelf(children, finalRoot);
    assert Closed(children, seen);
    if Reaches(children, finalRoot, h) {
      ClosedHoldsReachable(children, seen, finalRoot, h);
    }
  }

  ghost function AllHashes(children: Links, root: Hash): (all: set<Hash>)
    ensures root in all
    ensures forall p, c {:trigger c in ChildrenOf(children, p)} :: c in ChildrenOf(children, p) ==> c in all
  {
    {root} + set p, c | p in children && c in children[p] :: c
  }

  // ----- invariants of every run -----

  /** Child lists belong to nodes, and list nodes that name them as a parent. */
  ghost predicate WellLinked(g: Graph) {
    && (forall h :: h in g.nodes ==> g.nodes[h].rootHash == h)
    && (forall p :: p in g.children ==> p in g.nodes)
    && forall p, c {:trigger c in ChildrenOf(g.children, p)} ::
         c in ChildrenOf(g.children, p) ==> c in g.nodes && p in g.nodes[c].parents
  }

  /** Every parent a node names is a node and lists it: lost when a parent is pruned. */
  ghost predicate Complete(g: Graph) {
    forall c, p {:trigger p in g.nodes[c].parents} ::
      c in g.nodes && p in g.nodes[c].parents ==> p in g.nodes && c in ChildrenOf(g.children, p)
  }

  predicate Childless(g: Graph, h: Hash) { h in g.nodes && ChildrenOf(g.children, h) == [] }

  /** The tips are the childless nodes, each once. */
  ghost predicate TipsExact(g: Graph) { NoDuplicates(g.tips) && forall h :: h in g.tips <==> Childless(g, h) }

  /** Every tip is a childless node, and every childless node that names a parent is a tip. */
  ghost predicate TipsSound(g: Graph) {
    && NoDuplicates(g.tips)
    && forall h :: (h in g.tips ==> Childless(g, h)) && (Childless(g, h) && g.nodes[h].parents != [] ==> h in g.tips)
  }

  lemma AddedChildren(g: Graph, node: StateNode, after: Graph, p: Hash)
    requires Added(g, node, after)
    ensures forall c :: c in ChildrenOf(after.children, p) <==>
              c in ChildrenOf(g.children, p) || (c == node.rootHash && p in node.parents)
    ensures ChildrenOf(after.children, p) == [] <==> ChildrenOf(g.children, p) == [] && p !in node.parents
  {
    var n := Times(node.parents, p);
    assert n > 0 ==> Repeat(node.rootHash, n)[0] == node.rootHash;
  }

  lemma AddedKeys(g: Graph, node: StateNode, after: Graph)
    requires Added(g, node, after)
    ensures forall p :: p in after.children ==> p in g.children || p in node.parents
  {
  }

  lemma NoChildYet(g: Graph, h: Hash)
    requires WellLinked(g) && h !in g.nodes
    ensures ChildrenOf(g.children, h) == []
  {
  }

  /** AddNode keeps the frontier exact precisely when the new node has no child yet, itself included. */
  lemma AddKeepsTips(g: Graph, node: StateNode, after: Graph)
    requires TipsExact(g) && Added(g, node, after)
    ensures TipsExact(after) <==> node.rootHash !in node.parents && ChildrenOf(g.children, node.rootHash) == []
  {
    hide Linked;
    forall h
      ensures Childless(after, h) <==>
                (Childless(g, h) && h !in node.parents) || (h == node.rootHash && ChildrenOf(after.children, h) == [])
    {
      AddedChildren(g, node, after, h);
    }
    AddedChildren(g, node, after, node.rootHash);
    assert node.rootHash in after.tips;
  }

  lemma AddKeepsSound(g: Graph, node: StateNode, after: Graph)
    requires TipsSound(g) && Added(g, node, after)
    requires node.rootHash !in node.parents && ChildrenOf(g.children, node.rootHash) == []
    ensures TipsSound(after)
  {
    hide Linked;
    forall h
      ensures Childless(after, h) <==> (Childless(g, h) && h !in node.parents) || h == node.rootHash
    {
      AddedChildren(g, node, after, h);
    }
  }

  /** A node whose parents are all present keeps the links right, and has no child yet. */
  lemma AddKeepsLinks(g: Graph, node: StateNode, after: Graph)
    requires WellLinked(g) && Added(g, node, after)
    requires forall p :: p in node.parents ==> p in g.nodes
    ensures WellLinked(after) && (Complete(g) ==> Complete(after))
    ensures node.rootHash !in node.parents && ChildrenOf(g.children, node.rootHash) == []
  {
    hide Times, Repeat, ChildrenOf, Without, Linked;
    AddedKeys(g, node, after);
    assert node.rootHash !in node.parents;
    forall p, c
      ensures c in ChildrenOf(after.children, p) ==> c in after.nodes && p in after.nodes[c].parents
      ensures Complete(g) && c in after.nodes && p in after.nodes[c].parents ==>
                p in after.nodes && c in ChildrenOf(after.children, p)
    {
      AddedChildren(g, node, after, p);
      assert c in ChildrenOf(g.children, p) ==> c in g.nodes && p in g.nodes[c].parents;
      assert c in after.nodes && c != node.rootHash ==> after.nodes[c] == g.nodes[c];
    }
    NoChildYet(g, node.rootHash);
  }

  lemma KeptChildren(g: Graph, r: Hash, mid: Graph, p: Hash)
    requires PrunedTo(g, r, mid) && Reaches(g.children, r, p)
    ensures ChildrenOf(mid.children, p) == ChildrenOf(g.children, p)
  {
  }

  lemma PruneKeepsLinks(g: Graph, finalRoot: Hash, after: Graph)
    requires WellLinked(g) && PrunedTo(g, finalRoot, after)
    ensures WellLinked(after) && TipsSound(after)
  {
    hide Reaches;
    forall p, c
      ensures c in ChildrenOf(after.children, p) ==> c in after.nodes && p in after.nodes[c].parents
    {
      if c in ChildrenOf(after.children, p) {
        KeptChildren(g, finalRoot, after, p);
        ReachesNext(g.children, finalRoot, p, c);
      }
    }
  }

  /** After a prune the only childless node that is no tip is a final root that has neither parent nor child. */
  lemma PrunedTips(g: Graph, finalRoot: Hash, after: Graph, h: Hash)
    requires WellLinked(g) && PrunedTo(g, finalRoot, after)
    ensures h in after.tips <==> Childless(after, h) && (h == finalRoot ==> after.nodes[h].parents != [])
  {
    hide Reaches;
    if h in after.nodes && h != finalRoot {
      LastEdge(g.children, finalRoot, h);
      var p :| h in ChildrenOf(g.children, p);
      assert p in g.nodes[h].parents;
    }
  }

  lemma LastEdge(children: Links, a: Hash, b: Hash)
    requires Reaches(children, a, b) && a != b
    ensures exists p :: b in ChildrenOf(children, p)
  {
    var path :| Connects(children, path, a, b);
    var k := |path| - 2;
    assert path[k + 1] in ChildrenOf(children, path[k]);
  }

  /** Pruning to r and then to one of its descendants is pruning to the descendant. */
  lemma PruneComposes(g: Graph, r: Hash, mid: Graph, d: Hash, after: Graph)
    requires PrunedTo(g, r, mid) && PrunedTo(mid, d, after) && Reaches(g.children, r, d)
    ensures PrunedTo(g, d, after)
  {
    hide Reaches;
    forall h
      ensures Reaches(mid.children, d, h) <==> Reaches(g.children, d, h)
      ensures Reaches(g.children, d, h) ==> Reaches(g.children, r, h)
    {
      SamePaths(g, r, mid, d, h);
    }
    assert after.nodes == KeptNodes(g, d);
    assert after.children == KeptLinks(g, d);
  }

  lemma SamePaths(g: Graph, r: Hash, mid: Graph, d: Hash, h: Hash)
    requires PrunedTo(g, r, mid) && Reaches(g.children, r, d)
    ensures Reaches(mid.children, d, h) <==> Reaches(g.children, d, h)
    ensures Reaches(g.children, d, h) ==> Reaches(g.children, r, h)
  {
    hide Reaches, PrunedTo;
    if Reaches(g.children, d, h) {
      var path := PathOf(g.children, d, h);
      PathKept(g, r, mid, path, |path| - 1);
      assert Connects(mid.children, path, d, h) by {
        assert path[..|path|] == path;
      }
      PathMakes(mid.children, path, d, h);
    }
    if Reaches(mid.children, d, h) {
      var path := PathOf(mid.children, d, h);
      PathWas(g, r, mid, path);
      PathMakes(g.children, path, d, h);
    }
  }

  lemma PathOf(children: Links, a: Hash, b: Hash) returns (path: seq<Hash>)
    requires Reaches(children, a, b)
    ensures Connects(children, path, a, b)
  {
    path :| Connects(children, path, a, b);
  }

  lemma PathMakes(children: Links, path: seq<Hash>, a: Hash, b: Hash)
    requires Connects(children, path, a, b)
    ensures Reaches(children, a, b)
  {
  }

  lemma {:induction false} PathKept(g: Graph, r: Hash, mid: Graph, path: seq<Hash>, k: nat)
    requires PrunedTo(g, r, mid) && IsPath(g.children, path) && Reaches(g.children, r, path[0]) && k < |path|
    ensures IsPath(mid.children, path[..k + 1]) && Reaches(g.children, r, path[k])
    decreases k
  {
    hide Reaches, PrunedTo;
    if k > 0 {
      var j := k - 1;
      PathKept(g, r, mid, path, j);
      assert path[j + 1] in ChildrenOf(g.children, path[j]);
      KeptChildren(g, r, mid, path[j]);
      ReachesNext(g.children, r, path[j], path[k]);
      var shorter, longer := path[..k], path[..k + 1];
      forall i {:trigger longer[i + 1]} | 0 <= i < |longer| - 1
        ensures longer[i + 1] in ChildrenOf(mid.children, longer[i])
      {
        if i < k - 1 {
          assert shorter[i + 1] in ChildrenOf(mid.children, shorter[i]);
        }
      }
    }
  }

  lemma PathWas(g: Graph, r: Hash, mid: Graph, path: seq<Hash>)
    requires PrunedTo(g, r, mid) && IsPath(mid.children, path)
    ensures IsPath(g.children, path)
  {
    hide Reaches;
    forall i {:trigger path[i + 1]} | 0 <= i < |path| - 1
      ensures path[i + 1] in ChildrenOf(g.children, path[i])
    {
      assert path[i + 1] in ChildrenOf(mid.children, path[i]);
    }
  }

  // ----- runs -----

  datatype Op = Add(node: StateNode) | Prune(finalRoot: Hash)

  ghost predicate Did(g: Graph, op: Op, after: Graph) {
    match op
    case Add(node) => Added(g, node, after)
    case Prune(finalRoot) => PrunedTo(g, finalRoot, after)
  }

  /** graphs are the values of a DAG under ops, every node being added after its parents. */
  ghost predicate OrderedRun(graphs: seq<Graph>, ops: seq<Op>) {
    && |graphs| == |ops| + 1 && graphs[0] == EMPTY_GRAPH
    && forall i {:trigger ops[i]} :: 0 <= i < |ops| ==>
         && Did(graphs[i], ops[i], graphs[i + 1])
         && (ops[i].Add? ==> forall p :: p in ops[i].node.parents ==> p in graphs[i].nodes)
  }

  /**
   * In every run that adds parents before children, whatever is pruned in between, tips are
   * childless nodes and every childless node with a parent is a tip; without pruning they
   * are exactly the childless nodes.
   */
  lemma {:induction false} RunTips(graphs: seq<Graph>, ops: seq<Op>, k: nat)
    requires OrderedRun(graphs, ops) && k <= |ops|
    ensures WellLinked(graphs[k]) && TipsSound(graphs[k])
    ensures (forall i :: 0 <= i < k ==> ops[i].Add?) ==> Complete(graphs[k]) && TipsExact(graphs[k])
    decreases k
  {
    hide WellLinked, TipsSound, TipsExact, Complete, Added, PrunedTo, Linked;
    if k == 0 {
      EmptyGraph();
    } else {
      RunTips(graphs, ops, k - 1);
      var g, after := graphs[k - 1], graphs[k];
      match ops[k - 1] {
        case Add(node) =>
          AddKeepsLinks(g, node, after);
          AddKeepsSound(g, node, after);
          if forall i :: 0 <= i < k ==> ops[i].Add? {
            AddKeepsTips(g, node, after);
          }
        case Prune(finalRoot) =>
          PruneKeepsLinks(g, finalRoot, after);
          assert !ops[k - 1].Add?;
      }
    }
  }

  lemma EmptyGraph()
    ensures WellLinked(EMPTY_GRAPH) && TipsSound(EMPTY_GRAPH) && Complete(EMPTY_GRAPH) && TipsExact(EMPTY_GRAPH)
  {
  }
}
