// What the preflight accepts, told by the paths through the document as it was written: how many there are, and what
// stands at the end of each. Nothing here unfolds anything.
module Acceptance {
  import opened YamlGraph
  import opened Preflight

  ghost predicate Goes(g: Graph, n: Node, path: seq<nat>) {
    exists m | m in g :: IsPath(g, n, path, m)
  }

  // All paths from a node, and no more of them than the bound.
  ghost predicate AllPaths(g: Graph, n: Node, paths: set<seq<nat>>) {
    forall path :: Goes(g, n, path) <==> path in paths
  }

  ghost predicate FewPaths(g: Graph, n: Node, bound: nat) {
    exists paths :: AllPaths(g, n, paths) && |paths| <= bound
  }

  // The alias chain from `n` ends at `m` after so many hops.
  ghost predicate EndsAfter(n: Node, hops: nat, m: Node) {
    if hops == 0 then n == m && !n.kind.Alias?
    else n.kind.Alias? && n.alias != null && EndsAfter(n.alias, hops - 1, m)
  }

  ghost predicate EndsAt(n: Node, m: Node) {
    exists hops: nat :: EndsAfter(n, hops, m)
  }

  // Every scalar written with a tag decodes under it.
  ghost predicate ScalarDecodes(m: Node) {
    m.kind.Scalar? && m.tagged ==> m.decodes
  }

  // The i-th key of a mapping stands for neither a mapping nor a sequence.
  ghost predicate KeyDecodes(g: Graph, m: Node, i: nat)
    requires m in g && 2 * i + 1 < |g[m]|
  {
    forall e | e in g && EndsAt(g[m][2 * i], e) :: !e.kind.Mapping? && !e.kind.Sequence?
  }

  // And a merge key lists mappings: what its value stands for, or everything in it where that is a sequence.
  ghost predicate MergeDecodes(g: Graph, m: Node, i: nat)
    requires m in g && 2 * i + 1 < |g[m]|
  {
    g[m][2 * i].tag == "!!merge" ==>
      forall s, e | s in g && e in g && IsSource(g, g[m][2 * i + 1], s) && EndsAt(s, e) :: e.kind.Mapping?
  }

  ghost predicate IsSource(g: Graph, v: Node, s: Node) {
    exists u | u in g :: EndsAt(v, u) && if u.kind.Sequence? then s in g[u] else s == u
  }

  ghost predicate MappingDecodes(g: Graph, m: Node)
    requires m in g
  {
    m.kind.Mapping? ==> forall i: nat | 2 * i + 1 < |g[m]| :: KeyDecodes(g, m, i) && MergeDecodes(g, m, i)
  }

  // The verdict: a bounded number of paths, and at the end of each nothing the Collector could not decode.
  ghost predicate Decodable(g: Graph, root: Node) {
    forall m | m in g && Reaches(g, root, m) :: ScalarDecodes(m) && MappingDecodes(g, m)
  }

  // Paths and unfoldings.

  ghost predicate TreePath(t: Tree, path: seq<nat>)
    decreases |path|
  {
    path == [] || (path[0] < |t.kids| && TreePath(t.kids[path[0]], path[1..]))
  }

  // The paths from a node are those through its unfolding.
  lemma {:induction false} PathsAreTreePaths(g: Graph, n: Node, t: Tree, path: seq<nat>)
    requires Closed(g) && Unfolds(g, n, t)
    ensures Goes(g, n, path) <==> TreePath(t, path)
    decreases |path|
  {
    if path == [] {
      assert IsPath(g, n, path, n);
    } else if path[0] < |t.kids| {
      var i, rest := path[0], path[1..];
      assert path == [i] + rest;
      assert EdgesStay(g, n);
      PathsAreTreePaths(g, Next(g, n)[i], t.kids[i], rest);
      forall m | m in g
        ensures IsPath(g, n, path, m) <==> IsPath(g, Next(g, n)[i], rest, m)
      {
        StepPath(g, n, i, rest, m);
      }
    } else {
      assert EdgesStay(g, n);
    }
  }

  // The paths through a tree, one for each of its nodes.
  ghost function PathsOf(t: Tree): set<seq<nat>>
    decreases t, 1
  {
    {[]} + PathsOfKids(t.kids, 0)
  }

  // Those through its kids, the first of which is the `from`-th.
  ghost function PathsOfKids(ts: seq<Tree>, from: nat): set<seq<nat>>
    decreases ts, 0
  {
    if ts == [] then {}
    else (set path | path in PathsOf(ts[0]) :: [from] + path) + PathsOfKids(ts[1..], from + 1)
  }

  lemma {:induction false} PathsOfAll(t: Tree, path: seq<nat>)
    ensures path in PathsOf(t) <==> TreePath(t, path)
    decreases t, 1
  {
    PathsOfAllKids(t.kids, 0, path);
  }

  lemma {:induction false} PathsOfAllKids(ts: seq<Tree>, from: nat, path: seq<nat>)
    ensures path in PathsOfKids(ts, from) <==>
            path != [] && from <= path[0] < from + |ts| && TreePath(ts[path[0] - from], path[1..])
    decreases ts, 0
  {
    if ts != [] {
      PathsOfAllKids(ts[1..], from + 1, path);
      if path != [] {
        assert path == [path[0]] + path[1..];
        PathsOfAll(ts[0], path[1..]);
        assert path[0] == from ==> (path[1..] in PathsOf(ts[0]) <==> TreePath(ts[0], path[1..]));
      }
      forall p | p in PathsOf(ts[0])
        ensures ([from] + p)[0] == from && ([from] + p)[1..] == p
      {
      }
    }
  }

  lemma {:induction false} PathsOfSize(t: Tree)
    ensures |PathsOf(t)| == Size(t)
    decreases t, 1
  {
    PathsOfKidsSize(t.kids, 0);
    PathsOfAllKids(t.kids, 0, []);
  }

  lemma {:induction false} PathsOfKidsSize(ts: seq<Tree>, from: nat)
    ensures |PathsOfKids(ts, from)| == SumSize(ts)
    decreases ts, 0
  {
    if ts != [] {
      PathsOfSize(ts[0]);
      PathsOfKidsSize(ts[1..], from + 1);
      var here := set path | path in PathsOf(ts[0]) :: [from] + path;
      LongerPaths(PathsOf(ts[0]), from);
      forall path | path in here
        ensures path !in PathsOfKids(ts[1..], from + 1)
      {
        PathsOfAllKids(ts[1..], from + 1, path);
      }
      assert here !! PathsOfKids(ts[1..], from + 1);
    }
  }

  lemma {:induction false} LongerPaths(paths: set<seq<nat>>, i: nat)
    ensures |set path | path in paths :: [i] + path| == |paths|
    decreases paths
  {
    if paths != {} {
      var p :| p in paths;
      var rest := paths - {p};
      LongerPaths(rest, i);
      var shorter := set path | path in rest :: [i] + path;
      assert (set path | path in paths :: [i] + path) == shorter + {[i] + p};
      forall path | path in rest
        ensures [i] + path != [i] + p
      {
        assert ([i] + path)[1..] == path && ([i] + p)[1..] == p;
      }
      assert [i] + p !in shorter;
    }
  }

  // Where there is an unfolding, its size counts the paths.
  lemma SizeCountsPaths(g: Graph, n: Node)
    requires Closed(g) && HasTree(g, n)
    ensures AllPaths(g, n, PathsOf(TreeOf(g, n))) && |PathsOf(TreeOf(g, n))| == SizeAt(g, n)
  {
    var t := TreeOf(g, n);
    PathsOfSize(t);
    forall path
      ensures Goes(g, n, path) <==> path in PathsOf(t)
    {
      PathsAreTreePaths(g, n, t, path);
      PathsOfAll(t, path);
    }
  }

  // And there is one where no path is longer than some length.
  lemma {:induction false} ShortPathsUnfold(g: Graph, n: Node, longest: nat)
    requires Closed(g) && n in g && forall path | Goes(g, n, path) :: |path| <= longest
    ensures HasTree(g, n)
    decreases longest
  {
    assert EdgesStay(g, n);
    forall i | 0 <= i < |Next(g, n)|
      ensures HasTree(g, Next(g, n)[i])
    {
      var next := Next(g, n)[i];
      assert IsPath(g, next, [], next);
      forall path | Goes(g, next, path)
        ensures |path| <= longest - 1
      {
        var m :| m in g && IsPath(g, next, path, m);
        StepPath(g, n, i, path, m);
        assert Goes(g, n, [i] + path);
      }
      assert Goes(g, next, []);
      ShortPathsUnfold(g, next, longest - 1);
    }
    TreeFromKids(g, n);
  }

  lemma {:induction false} LongestOf(paths: set<seq<nat>>) returns (longest: nat)
    ensures forall path | path in paths :: |path| <= longest
    decreases paths
  {
    if paths == {} {
      longest := 0;
    } else {
      var p :| p in paths;
      longest := LongestOf(paths - {p});
      longest := if longest < |p| then |p| else longest;
    }
  }

  // A bounded unfolding is a bounded number of paths.
  lemma BoundedIsFewPaths(g: Graph, n: Node, bound: nat)
    requires Closed(g) && n in g
    ensures HasTree(g, n) && SizeAt(g, n) <= bound <==> FewPaths(g, n, bound)
  {
    if HasTree(g, n) {
      SizeCountsPaths(g, n);
    }
    if FewPaths(g, n, bound) {
      var paths :| AllPaths(g, n, paths) && |paths| <= bound;
      var longest := LongestOf(paths);
      ShortPathsUnfold(g, n, longest);
      SizeCountsPaths(g, n);
      assert paths == PathsOf(TreeOf(g, n));
    }
  }

  // Targets are where alias chains end.
  lemma {:induction false} TargetIsEnd(g: Graph, n: Node)
    requires Closed(g) && HasTree(g, n)
    ensures var u := Target(TreeOf(g, n)); u.node in g && EndsAt(n, u.node)
    ensures var u := Target(TreeOf(g, n)); HasTree(g, u.node) && u == TreeOf(g, u.node)
    decreases SizeAt(g, n)
  {
    TreeOfKids(g, n);
    if n.kind.Alias? {
      assert EdgesStay(g, n);
      NextIsSmaller(g, n, 0);
      TargetIsEnd(g, n.alias);
      var hops: nat :| EndsAfter(n.alias, hops, Target(TreeOf(g, n)).node);
      assert EndsAfter(n, hops + 1, Target(TreeOf(g, n)).node);
    } else {
      assert EndsAfter(n, 0, n);
    }
  }

  lemma {:induction false} EndIsOne(n: Node, h: nat, k: nat, a: Node, b: Node)
    requires EndsAfter(n, h, a) && EndsAfter(n, k, b)
    ensures a == b
    decreases h
  {
    if n.kind.Alias? {
      EndIsOne(n.alias, h - 1, k - 1, a, b);
    }
  }

  lemma EndIsTarget(g: Graph, n: Node, m: Node)
    requires Closed(g) && HasTree(g, n)
    ensures EndsAt(n, m) <==> m == Target(TreeOf(g, n)).node
  {
    TargetIsEnd(g, n);
    if EndsAt(n, m) {
      var h: nat :| EndsAfter(n, h, m);
      var k: nat :| EndsAfter(n, k, Target(TreeOf(g, n)).node);
      EndIsOne(n, h, k, m, Target(TreeOf(g, n)).node);
    }
  }

  // One node's constraints, on the tree and on the graph.
  lemma NodeDecodesHere(g: Graph, n: Node)
    requires Closed(g) && HasTree(g, n)
    ensures NodeDecodes(TreeOf(g, n)) <==> ScalarDecodes(n) && MappingDecodes(g, n)
  {
    var t := TreeOf(g, n);
    TreeOfKids(g, n);
    if n.kind.Mapping? {
      forall i: nat | 2 * i + 1 < |g[n]|
        ensures EntryDecodes(t.kids[2 * i], t.kids[2 * i + 1]) <==> KeyDecodes(g, n, i) && MergeDecodes(g, n, i)
      {
        EntryDecodesHere(g, n, i);
      }
      if MappingDecodes(g, n) {
        forall i | 0 <= i < |t.kids| / 2
          ensures EntryDecodes(t.kids[2 * i], t.kids[2 * i + 1])
        {
          assert KeyDecodes(g, n, i);
        }
      }
      if NodeDecodes(t) {
        forall i: nat | 2 * i + 1 < |g[n]|
          ensures KeyDecodes(g, n, i) && MergeDecodes(g, n, i)
        {
          assert EntryDecodes(t.kids[2 * i], t.kids[2 * i + 1]);
        }
      }
    }
  }

  lemma EntryDecodesHere(g: Graph, n: Node, i: nat)
    requires Closed(g) && HasTree(g, n) && n.kind.Mapping? && 2 * i + 1 < |g[n]|
    requires |TreeOf(g, n).kids| == |g[n]|
    ensures EntryDecodes(TreeOf(g, n).kids[2 * i], TreeOf(g, n).kids[2 * i + 1]) <==>
            KeyDecodes(g, n, i) && MergeDecodes(g, n, i)
  {
    TreeOfKids(g, n);
    var k, v := g[n][2 * i], g[n][2 * i + 1];
    assert TreeOf(g, n).kids[2 * i] == TreeOf(g, k) && TreeOf(g, n).kids[2 * i + 1] == TreeOf(g, v);
    TargetIsEnd(g, k);
    EndIsTarget(g, k, Target(TreeOf(g, k)).node);
    forall e | e in g
      ensures EndsAt(k, e) <==> e == Target(TreeOf(g, k)).node
    {
      EndIsTarget(g, k, e);
    }
    SourcesHere(g, v);
  }

  // The sources a merge key lists.
  lemma SourcesHere(g: Graph, v: Node)
    requires Closed(g) && HasTree(g, v)
    ensures (forall s | s in Candidates(TreeOf(g, v)) :: Target(s).node.kind.Mapping?) <==>
            forall s, e | s in g && e in g && IsSource(g, v, s) && EndsAt(s, e) :: e.kind.Mapping?
  {
    var u := Target(TreeOf(g, v));
    TargetIsEnd(g, v);
    TreeOfKids(g, u.node);
    assert EdgesStay(g, u.node);
    forall w | w in g
      ensures EndsAt(v, w) <==> w == u.node
    {
      EndIsTarget(g, v, w);
    }
    var written := if u.node.kind.Sequence? then g[u.node] else [u.node];
    var listed := Candidates(TreeOf(g, v));
    assert forall s | s in g :: IsSource(g, v, s) <==> s in written;
    assert |listed| == |written|;
    forall i | 0 <= i < |written|
      ensures written[i] in g && HasTree(g, written[i]) && listed[i] == TreeOf(g, written[i])
      ensures forall e | e in g :: EndsAt(written[i], e) <==> e == Target(listed[i]).node
      ensures Target(listed[i]).node in g
    {
      TargetIsEnd(g, written[i]);
      forall e | e in g
        ensures EndsAt(written[i], e) <==> e == Target(listed[i]).node
      {
        EndIsTarget(g, written[i], e);
      }
    }
    if forall s | s in listed :: Target(s).node.kind.Mapping? {
      forall s, e | s in g && e in g && IsSource(g, v, s) && EndsAt(s, e)
        ensures e.kind.Mapping?
      {
        var i :| 0 <= i < |written| && written[i] == s;
        assert listed[i] in listed;
      }
    }
    if forall s, e | s in g && e in g && IsSource(g, v, s) && EndsAt(s, e) :: e.kind.Mapping? {
      forall s | s in listed
        ensures Target(s).node.kind.Mapping?
      {
        var i :| 0 <= i < |listed| && listed[i] == s;
        assert IsSource(g, v, written[i]) && EndsAt(written[i], Target(s).node);
      }
    }
  }

  // All constraints below a node.
  lemma {:induction false} DecodesIsDecodable(g: Graph, n: Node)
    requires Closed(g) && HasTree(g, n)
    ensures Decodes(TreeOf(g, n)) <==> Decodable(g, n)
    decreases SizeAt(g, n)
  {
    TreeOfKids(g, n);
    var t := TreeOf(g, n);
    NodeDecodesHere(g, n);
    forall i | 0 <= i < |t.kids|
      ensures Decodes(t.kids[i]) <==> Decodable(g, Next(g, n)[i])
    {
      NextIsSmaller(g, n, i);
      DecodesIsDecodable(g, Next(g, n)[i]);
    }
    DecodableBelow(g, n);
  }

  lemma DecodableBelow(g: Graph, n: Node)
    requires Closed(g) && n in g
    ensures Decodable(g, n) <==>
            && ScalarDecodes(n) && MappingDecodes(g, n)
            && forall i | 0 <= i < |Next(g, n)| :: Decodable(g, Next(g, n)[i])
  {
    assert IsPath(g, n, [], n);
    forall i, m | 0 <= i < |Next(g, n)| && m in g && Reaches(g, Next(g, n)[i], m)
      ensures Reaches(g, n, m)
    {
      var path :| IsPath(g, Next(g, n)[i], path, m);
      StepPath(g, n, i, path, m);
    }
    forall m | m in g && Reaches(g, n, m) && m != n
      ensures exists i | 0 <= i < |Next(g, n)| :: Reaches(g, Next(g, n)[i], m)
    {
      var path :| IsPath(g, n, path, m);
      assert EdgesStay(g, n);
      assert IsPath(g, Next(g, n)[path[0]], path[1..], m);
      assert Reaches(g, Next(g, n)[path[0]], m);
    }
  }

  // What the preflight decides, told by paths.
  lemma AcceptedIsDecodable(g: Graph, root: Node)
    requires Closed(g) && root in g
    ensures Acceptable(g, root) <==> FewPaths(g, root, 100_000) && Decodable(g, root)
  {
    BoundedIsFewPaths(g, root, 100_000);
    if HasTree(g, root) {
      DecodesIsDecodable(g, root);
    }
  }

  // And what it says of a document it refuses: an alias that leads back to itself, a node the Collector cannot decode,
  // or an edge out of a node with too many paths below it.
  ghost predicate Blames(g: Graph, root: Node, why: Rejection) {
    && why.at in g
    && match why
       case CyclicAlias(a) => Reaches(g, root, a) && a.kind.Alias? && exists loop :: loop != [] && IsPath(g, a, loop, a)
       case Undecodable(m) => Reaches(g, root, m) && !(ScalarDecodes(m) && MappingDecodes(g, m))
       case TooLarge(child) => exists m, i | m in g ::
         Reaches(g, root, m) && IsPath(g, m, [i], child) && !FewPaths(g, m, 100_000)
  }

  lemma ExplainedIsBlamed(g: Graph, root: Node, why: Rejection)
    requires Closed(g) && root in g && Explains(g, root, why)
    ensures Blames(g, root, why)
  {
    match why
    case CyclicAlias(a) =>
      var path :| IsPath(g, a.alias, path, a);
      StepPath(g, a, 0, path, a);
    case Undecodable(m) =>
      NodeDecodesHere(g, m);
    case TooLarge(child) =>
      var m :| m in g && Reaches(g, root, m) && child in Next(g, m) && IsTooLarge(g, m);
      var i :| 0 <= i < |Next(g, m)| && Next(g, m)[i] == child;
      StepPath(g, m, i, [], child);
      assert [i] + [] == [i];
      BoundedIsFewPaths(g, m, 100_000);
  }
}
