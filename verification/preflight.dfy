// The check every document passes before it is rewritten: no cyclic alias, no node the collector could not decode, and
// a bounded unfolding. Sizes are memoised per node, so the check costs the written graph rather than its unfolding.
module Preflight {
  import opened YamlGraph

  const MAX_EXPANDED_NODES := 100_000

  datatype Rejection = CyclicAlias(at: Node) | TooLarge(at: Node) | Undecodable(at: Node)

  datatype Outcome = Accepted(size: int) | Rejected(why: Rejection)

  // What the YAML parser promises about the nodes of one document. `first` numbers them in document order and `last` is
  // the end of each node's own run of numbers, so content forms a tree and an alias comes after the anchor it names.
  ghost predicate ParserShape(g: Graph, root: Node, first: map<Node, int>, last: map<Node, int>) {
    && root in g
    && first.Keys == g.Keys && last.Keys == g.Keys
    && (forall n {:trigger Numbered(g, root, n, first, last)} | n in g :: Numbered(g, root, n, first, last))
    && (forall n {:trigger Consecutive(g, n, first, last)} | n in g :: Consecutive(g, n, first, last))
  }

  // Numbers start at the root, run forward, and are not shared.
  ghost predicate Numbered(g: Graph, root: Node, n: Node, first: map<Node, int>, last: map<Node, int>)
    requires root in g && n in g && first.Keys == g.Keys && last.Keys == g.Keys
  {
    first[root] <= first[n] < last[n] <= last[root] && forall m | m in g && first[m] == first[n] :: m == n
  }

  // A node's children follow it, one run of numbers after the other, and end where it ends.
  ghost predicate Consecutive(g: Graph, n: Node, first: map<Node, int>, last: map<Node, int>)
    requires n in g && first.Keys == g.Keys && last.Keys == g.Keys
  {
    && (n.kind.Alias? ==> g[n] == [] && n.alias != null && n.alias in g && first[n.alias] < first[n])
    && (forall c | c in g[n] :: c in g)
    && (g[n] == [] ==> last[n] == first[n] + 1)
    && (g[n] != [] ==> first[g[n][0]] == first[n] + 1 && last[n] == last[g[n][|g[n]| - 1]])
    && forall i, j | 0 <= i < j < |g[n]| && j == i + 1 :: first[g[n][j]] == last[g[n][i]]
  }

  lemma ParserShapeCloses(g: Graph, root: Node, first: map<Node, int>, last: map<Node, int>)
    requires ParserShape(g, root, first, last)
    ensures Closed(g)
  {
    forall n | n in g
      ensures EdgesStay(g, n)
    {
      assert Consecutive(g, n, first, last);
    }
  }

  // Decode constraints, stated on the unfolding.

  ghost predicate Collection(t: Tree) {
    t.node.kind.Mapping? || t.node.kind.Sequence?
  }

  // What a merge key's value lists: itself when it is a mapping, its items otherwise.
  ghost function Listed(v: Tree): (sources: seq<Tree>)
    ensures SumSize(sources) <= Size(v)
    ensures !Target(v).node.kind.Mapping? ==> SumSize(sources) < Size(v)
  {
    var u := Target(v);
    assert SumSize([u]) == Size(u);
    if u.node.kind.Mapping? then [u] else u.kids
  }

  // The preflight tests for a sequence where the rewrite tests for a mapping, so the two are kept apart.
  ghost function Candidates(v: Tree): seq<Tree> {
    var u := Target(v);
    if u.node.kind.Sequence? then u.kids else [u]
  }

  ghost predicate EntryDecodes(k: Tree, v: Tree) {
    && !Collection(Target(k))
    && (k.node.tag == MERGE_TAG ==>
          forall s | s in Candidates(v) :: Target(s).node.kind.Mapping?)
  }

  ghost predicate NodeDecodes(t: Tree) {
    match t.node.kind
    case Scalar => t.node.tagged ==> t.node.decodes
    case Mapping => forall i {:trigger t.kids[2 * i]} | 0 <= i < |t.kids| / 2 ::
      EntryDecodes(t.kids[2 * i], t.kids[2 * i + 1])
    case _ => true
  }

  ghost predicate Decodes(t: Tree) {
    NodeDecodes(t) && forall i | 0 <= i < |t.kids| :: Decodes(t.kids[i])
  }

  // The whole verdict, without memo, order or early exit.
  ghost predicate Acceptable(g: Graph, n: Node) {
    HasTree(g, n) && Decodes(TreeOf(g, n)) && Size(TreeOf(g, n)) <= MAX_EXPANDED_NODES
  }

  // What a rejection says of the document below `n`.
  ghost predicate Explains(g: Graph, n: Node, why: Rejection) {
    && why.at in g
    && match why
       case CyclicAlias(a) => Reaches(g, n, a) && a.kind.Alias? && a.alias != null && Reaches(g, a.alias, a)
       case Undecodable(m) => Reaches(g, n, m) && HasTree(g, m) && !NodeDecodes(TreeOf(g, m))
       case TooLarge(child) => exists m | m in g :: Reaches(g, n, m) && child in Next(g, m) && IsTooLarge(g, m)
  }

  ghost predicate IsTooLarge(g: Graph, m: Node) {
    HasTree(g, m) ==> SizeAt(g, m) > MAX_EXPANDED_NODES
  }

  lemma ExplainsAbove(g: Graph, n: Node, i: nat, why: Rejection)
    requires Closed(g) && n in g && i < |Next(g, n)| && Explains(g, Next(g, n)[i], why)
    ensures Explains(g, n, why)
  {
    match why
    case TooLarge(child) =>
      var m :| m in g && Reaches(g, Next(g, n)[i], m) && child in Next(g, m) && IsTooLarge(g, m);
      ReachesFromNext(g, n, i, m);
    case _ =>
      ReachesFromNext(g, n, i, why.at);
  }

  // The nodes on the way down to `n`.
  ghost predicate Above(g: Graph, stack: seq<Node>, n: Node) {
    forall m | m in stack :: m in g && Reaches(g, m, n)
  }

  lemma AboveNext(g: Graph, stack: seq<Node>, n: Node, i: nat)
    requires Closed(g) && n in g && i < |Next(g, n)| && Above(g, stack, n)
    ensures Above(g, stack + [n], Next(g, n)[i])
  {
    assert IsPath(g, n, [], n);
    forall m | m in stack + [n]
      ensures m in g && Reaches(g, m, Next(g, n)[i])
    {
      ReachesNext(g, m, n, i);
    }
  }

  lemma {:induction false} AcceptableKids(g: Graph, n: Node, i: nat)
    requires Acceptable(g, n) && i < |Next(g, n)|
    ensures Acceptable(g, Next(g, n)[i])
  {
    TreeOfKids(g, n);
    KidIsSmaller(TreeOf(g, n).kids, i);
  }

  // aliasTarget.
  method AliasTarget(n: Node, ghost g: Graph) returns (r: Node)
    requires Current(g) && Closed(g) && n in g && HasTree(g, n)
    ensures r in g && HasTree(g, r)
    ensures !r.kind.Alias?
    ensures TreeOf(g, r) == Target(TreeOf(g, n))
  {
    r := n;
    while r.kind.Alias?
      invariant r in g && HasTree(g, r)
      invariant Target(TreeOf(g, r)) == Target(TreeOf(g, n))
      decreases if HasTree(g, r) then Size(TreeOf(g, r)) else 0
    {
      assert EdgesStay(g, r);
      TreeOfKids(g, r);
      KidIsSmaller(TreeOf(g, r).kids, 0);
      assert Next(g, r)[0] == r.alias;
      r := r.alias;
    }
  }

  // The merge-key half of validateNode: every source must be a mapping.
  method SourcesAreMappings(v: Node, ghost g: Graph) returns (ok: bool)
    requires Current(g) && Closed(g) && v in g && HasTree(g, v)
    ensures ok <==> forall s | s in Candidates(TreeOf(g, v)) :: Target(s).node.kind.Mapping?
  {
    var value := AliasTarget(v, g);
    ghost var u := TreeOf(g, value);
    TreeOfKids(g, value);
    assert EdgesStay(g, value);
    var sources := [value];
    if value.kind.Sequence? {
      sources := value.content;
    }
    ghost var listed := Candidates(TreeOf(g, v));
    assert |listed| == |sources| && forall i | 0 <= i < |sources| ::
        sources[i] in g && HasTree(g, sources[i]) && listed[i] == TreeOf(g, sources[i]);
    for i := 0 to |sources|
      invariant forall j | 0 <= j < i :: Target(listed[j]).node.kind.Mapping?
    {
      var target := AliasTarget(sources[i], g);
      if !target.kind.Mapping? {
        assert listed[i] in listed;
        return false;
      }
    }
    return true;
  }

  // validateNode.
  method ValidateNode(n: Node, ghost g: Graph) returns (ok: bool)
    requires Current(g) && Closed(g) && n in g && HasTree(g, n)
    ensures ok <==> NodeDecodes(TreeOf(g, n))
  {
    ghost var t := TreeOf(g, n);
    TreeOfKids(g, n);
    assert EdgesStay(g, n);
    match n.kind
    case Scalar => ok := !n.tagged || n.decodes;
    case Mapping =>
      var i := 0;
      while 2 * i + 1 < |n.content|
        invariant 0 <= i <= |n.content| / 2
        invariant forall j | 0 <= j < i :: EntryDecodes(t.kids[2 * j], t.kids[2 * j + 1])
      {
        var k, v := n.content[2 * i], n.content[2 * i + 1];
        assert t.kids[2 * i] == TreeOf(g, k) && t.kids[2 * i + 1] == TreeOf(g, v);
        var key := AliasTarget(k, g);
        if key.kind.Mapping? || key.kind.Sequence? {
          assert !EntryDecodes(t.kids[2 * i], t.kids[2 * i + 1]);
          return false;
        }
        if k.tag == MERGE_TAG {
          var mappings := SourcesAreMappings(v, g);
          if !mappings {
            assert !EntryDecodes(t.kids[2 * i], t.kids[2 * i + 1]);
            return false;
          }
        }
        i := i + 1;
      }
      ok := true;
    case _ => ok := true;
  }

  // Finished entries are right, and the unfinished ones are the nodes on the way down to here.
  ghost predicate Sound(sizes: map<Node, int>, g: Graph, stack: seq<Node>) {
    && (forall m | m in sizes :: m in g)
    && (forall m | m in sizes && m !in stack :: Acceptable(g, m) && sizes[m] == SizeAt(g, m))
    && (forall m | m in stack :: m in sizes && sizes[m] == -1)
  }

  // The walk has entered exactly the nodes the document has before `bound`.
  ghost predicate Reached(sizes: map<Node, int>, g: Graph, first: map<Node, int>, bound: int)
    requires first.Keys == g.Keys
  {
    forall m | m in g :: m in sizes <==> first[m] < bound
  }

  lemma Finishes(sizes: map<Node, int>, g: Graph, stack: seq<Node>, n: Node, size: int)
    requires Sound(sizes, g, stack + [n]) && n !in stack
    requires Acceptable(g, n) && size == SizeAt(g, n)
    ensures Sound(sizes[n := size], g, stack)
  {
    assert n in stack + [n];
    forall m | m in stack
      ensures m in sizes && sizes[m] == -1
    {
      assert m in stack + [n];
    }
  }

  lemma Enters(sizes: map<Node, int>, g: Graph, stack: seq<Node>, n: Node)
    requires Sound(sizes, g, stack) && n in g && n !in sizes
    ensures Sound(sizes[n := -1], g, stack + [n])
  {
  }

  class Sizer {
    // Subtree sizes of finished nodes, and -1 for a node still being counted.
    var sizes: map<Node, int>

    constructor ()
      ensures sizes == map[]
    {
      sizes := map[];
    }

    // expandedSize. `stack` is the chain of callers, and the numbering is the parser's.
    method ExpandedSize(n: Node, ghost g: Graph, ghost root: Node,
                        ghost first: map<Node, int>, ghost last: map<Node, int>, ghost stack: seq<Node>)
      returns (r: Outcome)
      requires Current(g) && ParserShape(g, root, first, last) && n in g
      requires Sound(sizes, g, stack) && n !in stack
      requires Inside(g, stack, n) && Above(g, stack, n)
      // Either the node is already counted, or the walk has seen exactly what the document has before it.
      requires n in sizes || Reached(sizes, g, first, first[n])
      modifies this
      ensures r.Accepted? <==> Acceptable(g, n)
      ensures r.Rejected? ==> Explains(g, n, r.why)
      ensures r.Accepted? ==> Sound(sizes, g, stack) && n in sizes
      ensures r.Accepted? ==> r.size == SizeAt(g, n)
      ensures r.Accepted? && n in old(sizes) ==> sizes == old(sizes)
      ensures r.Accepted? && n !in old(sizes) ==> Reached(sizes, g, first, last[n])
      decreases if n in sizes then 0 else last[root] - first[n], 1
    {
      ParserShapeCloses(g, root, first, last);
      assert Consecutive(g, n, first, last);
      if n in sizes {
        return Accepted(sizes[n]);
      }
      assert Numbered(g, root, n, first, last);
      Enters(sizes, g, stack, n);
      sizes := sizes[n := -1];
      var children := n.content;
      if n.kind.Alias? {
        if n.alias in sizes && sizes[n.alias] == -1 {
          CycleHasNoTree(g, stack, n, 0);
          assert IsPath(g, n, [], n);
          return Rejected(CyclicAlias(n));
        }
        children := [n.alias];
      }
      assert n in sizes;
      r := CountChildren(n, children, g, root, first, last, stack);
      if r.Rejected? {
        return;
      }
      var valid := ValidateNode(n, g);
      NodeDecides(g, n);
      if !valid {
        assert IsPath(g, n, [], n);
        return Rejected(Undecodable(n));
      }
      Finishes(sizes, g, stack, n, r.size);
      FrontEnds(g, root, first, last, n);
      sizes := sizes[n := r.size];
    }

    // The counting loop of expandedSize.
    method CountChildren(n: Node, children: seq<Node>, ghost g: Graph, ghost root: Node,
                         ghost first: map<Node, int>, ghost last: map<Node, int>, ghost stack: seq<Node>)
      returns (r: Outcome)
      requires Current(g) && ParserShape(g, root, first, last) && Closed(g) && n in g && children == Next(g, n)
      requires Sound(sizes, g, stack + [n]) && Inside(g, stack, n) && Above(g, stack, n)
      requires Reached(sizes, g, first, first[n] + 1)
      requires n.kind.Alias? ==> n.alias in sizes && n.alias !in stack + [n]
      modifies this
      ensures r.Rejected? ==> !Acceptable(g, n) && Explains(g, n, r.why)
      ensures r.Accepted? ==>
                && Sound(sizes, g, stack + [n])
                && Reached(sizes, g, first, Front(g, n, first, last, |children|))
      ensures r.Accepted? ==> FirstAcceptable(g, children, |children|)
      ensures r.Accepted? ==> HasTree(g, n) && r.size == SizeAt(g, n) <= MAX_EXPANDED_NODES
      decreases last[root] - first[n], 0
    {
      ghost var path := stack + [n];
      var size := 1;
      for i := 0 to |children|
        invariant Sound(sizes, g, path)
        invariant FirstAcceptable(g, children, i)
        invariant size == 1 + Counted(g, children, i) <= MAX_EXPANDED_NODES
        invariant Reached(sizes, g, first, Front(g, n, first, last, i))
      {
        var child := children[i];
        ChildIsReady(g, root, first, last, n, i, sizes, path);
        InsideNext(g, stack, n, i);
        AboveNext(g, stack, n, i);
        var outcome := ExpandedSize(child, g, root, first, last, path);
        if outcome.Rejected? {
          RejectedChild(g, n, i);
          ExplainsAbove(g, n, i, outcome.why);
          return outcome;
        }
        OneMoreAcceptable(g, children, i);
        size := size + outcome.size;
        if size > MAX_EXPANDED_NODES {
          RejectedSize(g, n, i + 1);
          return Rejected(TooLarge(child));
        }
      }
      AllCounted(g, n);
      r := Accepted(size);
    }
  }

  // How far into the document the count has got once `i` children of `n` are done.
  ghost function Front(g: Graph, n: Node, first: map<Node, int>, last: map<Node, int>, i: nat): int
    requires n in g && n in first
  {
    if !n.kind.Alias? && 0 < i <= |g[n]| && g[n][i - 1] in last then last[g[n][i - 1]] else first[n] + 1
  }

  // The sizes of the first `i` nodes of a list.
  ghost function Counted(g: Graph, ns: seq<Node>, i: nat): nat
    requires i <= |ns|
  {
    if i == 0 then 0 else Counted(g, ns, i - 1) + SizeAt(g, ns[i - 1])
  }

  ghost predicate FirstAcceptable(g: Graph, ns: seq<Node>, i: nat)
    requires i <= |ns|
  {
    forall j | 0 <= j < i :: Acceptable(g, ns[j])
  }

  lemma {:induction false} CountedSums(g: Graph, ns: seq<Node>, ts: seq<Tree>, i: nat)
    requires i <= |ns| == |ts|
    requires forall j | 0 <= j < i :: HasTree(g, ns[j]) && ts[j] == TreeOf(g, ns[j])
    ensures Counted(g, ns, i) == SumSize(ts[..i])
  {
    if i > 0 {
      CountedSums(g, ns, ts, i - 1);
      assert ts[..i] == ts[..i - 1] + [ts[i - 1]];
      SumSizeConcat(ts[..i - 1], [ts[i - 1]]);
      assert SumSize([ts[i - 1]]) == Size(ts[i - 1]);
    }
  }

  lemma OneMoreAcceptable(g: Graph, ns: seq<Node>, i: nat)
    requires i < |ns| && FirstAcceptable(g, ns, i) && Acceptable(g, ns[i])
    ensures FirstAcceptable(g, ns, i + 1)
  {
  }

  lemma AllCounted(g: Graph, n: Node)
    requires n in g && FirstAcceptable(g, Next(g, n), |Next(g, n)|)
    ensures HasTree(g, n) && SizeAt(g, n) == 1 + Counted(g, Next(g, n), |Next(g, n)|)
  {
    TreeFromKids(g, n);
    CountedBound(g, n, |Next(g, n)|);
  }

  lemma RejectedChild(g: Graph, n: Node, i: nat)
    requires n in g && i < |Next(g, n)| && !Acceptable(g, Next(g, n)[i])
    ensures !Acceptable(g, n)
  {
    if Acceptable(g, n) {
      AcceptableKids(g, n, i);
    }
  }

  lemma RejectedSize(g: Graph, n: Node, i: nat)
    requires Closed(g) && n in g && 0 < i <= |Next(g, n)| && FirstAcceptable(g, Next(g, n), i)
    requires 1 + Counted(g, Next(g, n), i) > MAX_EXPANDED_NODES
    ensures !Acceptable(g, n) && Explains(g, n, TooLarge(Next(g, n)[i - 1]))
  {
    if HasTree(g, n) {
      CountedBound(g, n, i);
    }
    assert IsPath(g, n, [], n) && IsTooLarge(g, n) && EdgesStay(g, n);
  }

  // What is counted so far never exceeds the unfolding, and meets it at the end.
  lemma CountedBound(g: Graph, n: Node, i: nat)
    requires HasTree(g, n) && i <= |Next(g, n)|
    requires FirstAcceptable(g, Next(g, n), i)
    ensures 1 + Counted(g, Next(g, n), i) <= Size(TreeOf(g, n))
    ensures i == |Next(g, n)| ==> 1 + Counted(g, Next(g, n), i) == Size(TreeOf(g, n))
  {
    TreeOfKids(g, n);
    var ts := TreeOf(g, n).kids;
    CountedSums(g, Next(g, n), ts, i);
    SumSizeConcat(ts[..i], ts[i..]);
    assert ts == ts[..i] + ts[i..];
    assert i == |Next(g, n)| ==> ts[..i] == ts;
  }

  lemma FrontEnds(g: Graph, root: Node, first: map<Node, int>, last: map<Node, int>, n: Node)
    requires ParserShape(g, root, first, last) && n in g
    ensures Front(g, n, first, last, |Next(g, n)|) == last[n]
  {
    assert Consecutive(g, n, first, last);
    if !n.kind.Alias? && g[n] != [] {
      assert g[n][|g[n]| - 1] in g[n];
    }
  }

  // With every child acceptable, the node's own constraints and the bound decide.
  lemma NodeDecides(g: Graph, n: Node)
    requires HasTree(g, n) && FirstAcceptable(g, Next(g, n), |Next(g, n)|)
    ensures Acceptable(g, n) <==> NodeDecodes(TreeOf(g, n)) && SizeAt(g, n) <= MAX_EXPANDED_NODES
  {
    TreeOfKids(g, n);
  }

  // The next child is either counted and finished, or exactly where the count has got to; it is never on the way down.
  lemma ChildIsReady(g: Graph, root: Node, first: map<Node, int>, last: map<Node, int>, n: Node, i: nat,
                     sizes: map<Node, int>, path: seq<Node>)
    requires ParserShape(g, root, first, last) && n in g
    requires Reached(sizes, g, first, Front(g, n, first, last, i))
    requires i < |Next(g, n)|
    requires Sound(sizes, g, path)
    requires n.kind.Alias? ==> n.alias !in path
    ensures var child := Next(g, n)[i];
            && first[n] < last[root]
            && child in g && child !in path
            && if n.kind.Alias? then i == 0 && child == n.alias && child in sizes
               else child !in sizes && first[n] < first[child] == Front(g, n, first, last, i)
                    && last[child] == Front(g, n, first, last, i + 1)
  {
    assert Consecutive(g, n, first, last);
    assert Numbered(g, root, n, first, last);
    if !n.kind.Alias? {
      FrontIsAhead(g, root, first, last, n, i);
    }
  }

  lemma FrontIsAhead(g: Graph, root: Node, first: map<Node, int>, last: map<Node, int>, n: Node, i: nat)
    requires ParserShape(g, root, first, last) && n in g && !n.kind.Alias? && i < |g[n]|
    ensures g[n][i] in g && first[n] < first[g[n][i]] == Front(g, n, first, last, i)
    ensures last[g[n][i]] == Front(g, n, first, last, i + 1)
    decreases i
  {
    assert Consecutive(g, n, first, last);
    assert g[n][i] in g[n];
    if i > 0 {
      FrontIsAhead(g, root, first, last, n, i - 1);
      assert Numbered(g, root, g[n][i - 1], first, last);
    }
  }
}
