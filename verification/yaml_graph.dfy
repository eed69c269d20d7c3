// The node graph the YAML parser hands over, and the trees it unfolds into.
//
// A document is a tree of nodes joined by `content`, with extra edges where an alias points at an anchor. Every
// downstream walk follows both kinds of edge, so what it sees is the unfolding of the graph: the finite tree, if there
// is one, in which an alias holds a copy of what it names. Meaning, size and validity are all defined on that tree.
module YamlGraph {

  datatype Kind = Document | Sequence | Mapping | Scalar | Alias

  const MERGE_TAG := "!!merge"

  class Node {
    const kind: Kind
    const tag: string
    const value: string
    const line: int
    const column: int
    // Whether the tag was written out, and whether the YAML library can decode the scalar under it.
    const tagged: bool
    const decodes: bool
    // The node an alias names.
    const alias: Node?
    var content: seq<Node>
  }

  // A snapshot of the one mutable field, `content`, over a set of nodes.
  type Graph = map<Node, seq<Node>>

  ghost predicate Current(g: Graph)
    reads g.Keys
  {
    forall n | n in g :: n.content == g[n]
  }

  // Every node a walk can reach is in the graph.
  ghost predicate Closed(g: Graph) {
    forall n {:trigger EdgesStay(g, n)} | n in g :: EdgesStay(g, n)
  }

  ghost predicate EdgesStay(g: Graph, n: Node)
    requires n in g
  {
    && (forall c | c in g[n] :: c in g)
    && (n.kind.Alias? ==> n.alias != null && n.alias in g)
  }

  // The edges a walk follows out of a node.
  function Next(g: Graph, n: Node): seq<Node>
    requires n in g
  {
    if n.kind.Alias? then (if n.alias == null then [] else [n.alias]) else g[n]
  }

  datatype Tree = Tree(node: Node, kids: seq<Tree>)

  ghost predicate Unfolds(g: Graph, n: Node, older t: Tree)
    decreases t
  {
    && n in g
    && t.node == n
    && |t.kids| == |Next(g, n)|
    && forall i | 0 <= i < |t.kids| :: Unfolds(g, Next(g, n)[i], t.kids[i])
  }

  ghost predicate HasTree(g: Graph, n: Node) {
    exists t :: Unfolds(g, n, t)
  }

  // The unfolding from a node; UnfoldingIsUnique is what makes the choice immaterial.
  ghost function TreeOf(g: Graph, n: Node): (t: Tree)
    requires HasTree(g, n)
    ensures Unfolds(g, n, t)
  {
    var t :| Unfolds(g, n, t);
    t
  }

  ghost function Size(t: Tree): nat
    decreases t, 1
  {
    1 + SumSize(t.kids)
  }

  ghost function SumSize(ts: seq<Tree>): nat
    decreases ts, 0
  {
    if ts == [] then 0 else Size(ts[0]) + SumSize(ts[1..])
  }

  lemma {:induction false} SumSizeConcat(xs: seq<Tree>, ys: seq<Tree>)
    ensures SumSize(xs + ys) == SumSize(xs) + SumSize(ys)
  {
    if xs == [] {
      assert xs + ys == ys;
    } else {
      assert (xs + ys)[1..] == xs[1..] + ys;
      SumSizeConcat(xs[1..], ys);
    }
  }

  lemma {:induction false} KidIsSmaller(ts: seq<Tree>, i: nat)
    requires i < |ts|
    ensures Size(ts[i]) <= SumSize(ts)
  {
    if i > 0 {
      KidIsSmaller(ts[1..], i - 1);
    }
  }

  lemma {:induction false} UnfoldingIsUnique(g: Graph, n: Node, t: Tree, u: Tree)
    requires Unfolds(g, n, t) && Unfolds(g, n, u)
    ensures t == u
    decreases t
  {
    forall i | 0 <= i < |t.kids|
      ensures t.kids[i] == u.kids[i]
    {
      UnfoldingIsUnique(g, Next(g, n)[i], t.kids[i], u.kids[i]);
    }
    assert t.kids == u.kids;
  }

  // The unfolding of a node is the node over the unfoldings of its successors.
  lemma {:induction false} TreeOfKids(g: Graph, n: Node)
    requires HasTree(g, n)
    ensures TreeOf(g, n).node == n
    ensures |TreeOf(g, n).kids| == |Next(g, n)|
    ensures forall i | 0 <= i < |Next(g, n)| ::
              HasTree(g, Next(g, n)[i]) && TreeOf(g, n).kids[i] == TreeOf(g, Next(g, n)[i])
  {
    var t := TreeOf(g, n);
    forall i | 0 <= i < |Next(g, n)|
      ensures HasTree(g, Next(g, n)[i]) && t.kids[i] == TreeOf(g, Next(g, n)[i])
    {
      assert Unfolds(g, Next(g, n)[i], t.kids[i]);
      UnfoldingIsUnique(g, Next(g, n)[i], t.kids[i], TreeOf(g, Next(g, n)[i]));
    }
  }

  // Conversely, unfoldings of every successor make one of the node.
  lemma TreeFromKids(g: Graph, n: Node)
    requires n in g
    requires forall i | 0 <= i < |Next(g, n)| :: HasTree(g, Next(g, n)[i])
    ensures HasTree(g, n)
  {
    var kids := seq(|Next(g, n)|, i requires 0 <= i < |Next(g, n)| => TreeOf(g, Next(g, n)[i]));
    assert Unfolds(g, n, Tree(n, kids));
  }

  // Every node of `above` that unfolds at all unfolds into something with `n` strictly inside it.
  ghost predicate Inside(g: Graph, above: seq<Node>, n: Node) {
    forall m | m in above :: HasTree(g, m) ==> HasTree(g, n) && SizeAt(g, n) < SizeAt(g, m)
  }

  ghost function SizeAt(g: Graph, n: Node): nat {
    if HasTree(g, n) then Size(TreeOf(g, n)) else 0
  }

  lemma NextIsSmaller(g: Graph, n: Node, i: nat)
    requires n in g && i < |Next(g, n)| && HasTree(g, n)
    ensures HasTree(g, Next(g, n)[i]) && SizeAt(g, Next(g, n)[i]) < SizeAt(g, n)
  {
    TreeOfKids(g, n);
    KidIsSmaller(TreeOf(g, n).kids, i);
  }

  lemma InsideNext(g: Graph, above: seq<Node>, n: Node, i: nat)
    requires n in g && i < |Next(g, n)| && Inside(g, above, n)
    ensures Inside(g, above + [n], Next(g, n)[i])
  {
    if HasTree(g, n) {
      NextIsSmaller(g, n, i);
    }
  }

  // A node with a successor it is itself inside of is on a cycle, and unfolds for ever.
  lemma CycleHasNoTree(g: Graph, above: seq<Node>, n: Node, i: nat)
    requires n in g && i < |Next(g, n)| && Inside(g, above, n)
    requires Next(g, n)[i] in above + [n]
    ensures !HasTree(g, n)
  {
    if HasTree(g, n) {
      NextIsSmaller(g, n, i);
    }
  }

  // What an alias stands for, however long the chain.
  ghost function Target(t: Tree): (u: Tree)
    ensures Size(u) <= Size(t)
  {
    if t.node.kind.Alias? && |t.kids| > 0 then
      KidIsSmaller(t.kids, 0);
      Target(t.kids[0])
    else t
  }

  // Paths along the edges.

  // The path takes the numbered edge at each node on the way: into the content, or from an alias to what it names.
  ghost predicate IsPath(g: Graph, n: Node, path: seq<nat>, m: Node)
    decreases |path|
  {
    if path == [] then n == m
    else if n !in g then false
    else if n.kind.Alias? then path[0] == 0 && n.alias != null && IsPath(g, n.alias, path[1..], m)
    else path[0] < |g[n]| && IsPath(g, g[n][path[0]], path[1..], m)
  }

  ghost predicate Reaches(g: Graph, n: Node, m: Node) {
    exists path :: IsPath(g, n, path, m)
  }

  lemma StepPath(g: Graph, n: Node, i: nat, path: seq<nat>, m: Node)
    requires Closed(g) && n in g && i < |Next(g, n)|
    ensures IsPath(g, n, [i] + path, m) <==> IsPath(g, Next(g, n)[i], path, m)
  {
    assert ([i] + path)[1..] == path;
    assert EdgesStay(g, n);
  }

  lemma {:induction false} PathThen(g: Graph, n: Node, path: seq<nat>, m: Node, i: nat)
    requires Closed(g) && n in g && IsPath(g, n, path, m) && m in g && i < |Next(g, m)|
    ensures IsPath(g, n, path + [i], Next(g, m)[i])
    decreases |path|
  {
    assert EdgesStay(g, n);
    if path == [] {
      StepPath(g, n, i, [], Next(g, m)[i]);
      assert [] + [i] == [i] + [];
    } else {
      PathThen(g, Next(g, n)[path[0]], path[1..], m, i);
      assert path + [i] == [path[0]] + (path[1..] + [i]);
      StepPath(g, n, path[0], path[1..] + [i], Next(g, m)[i]);
    }
  }

  lemma ReachesNext(g: Graph, n: Node, m: Node, i: nat)
    requires Closed(g) && n in g && Reaches(g, n, m) && m in g && i < |Next(g, m)|
    ensures Reaches(g, n, Next(g, m)[i])
  {
    var path :| IsPath(g, n, path, m);
    PathThen(g, n, path, m, i);
  }

  lemma ReachesFromNext(g: Graph, n: Node, i: nat, m: Node)
    requires Closed(g) && n in g && i < |Next(g, n)| && Reaches(g, Next(g, n)[i], m)
    ensures Reaches(g, n, m)
  {
    var path :| IsPath(g, Next(g, n)[i], path, m);
    StepPath(g, n, i, path, m);
  }
}
