// The order Parse runs the passes in: the preflight first, and the rewrite only on a document it accepts.
module Load {
  import opened YamlGraph
  import opened Preflight
  import opened Acceptance
  import opened Merge
  import opened MergeShape
  import opened Resolver

  ghost function Snapshot(nodes: set<Node>): (g: Graph)
    reads nodes
    ensures g.Keys == nodes && Current(g)
  {
    map n: Node | n in nodes :: n.content
  }

  lemma {:induction false} AliasesAreNamed(g: Graph, n: Node)
    requires Closed(g) && HasTree(g, n)
    ensures AliasesNamed(TreeOf(g, n))
    decreases SizeAt(g, n)
  {
    TreeOfKids(g, n);
    assert EdgesStay(g, n);
    forall i | 0 <= i < |Next(g, n)|
      ensures AliasesNamed(TreeOf(g, n).kids[i])
    {
      NextIsSmaller(g, n, i);
      AliasesAreNamed(g, Next(g, n)[i]);
    }
  }

  // With nothing left in progress, a done node unfolds into its resolved tree.
  lemma {:induction false} DoneUnfolds(r: Resolver, g: Graph, n: Node)
    requires r.Inv(g, {}) && n in r.walked
    ensures Good(g, n)
    ensures Unfolds(Snapshot(g.Keys), n, Resolved(TreeOf(g, n)))
    decreases Size(Resolved(TreeOf(g, n)))
  {
    var after := Snapshot(g.Keys);
    var t := Resolved(TreeOf(g, n));
    assert r.walked - {} == r.walked;
    assert Finished(g, r.walked - {}, n, n.content);
    TargetSettles(TreeOf(g, n));
    TreeOfKids(g, n);
    assert Next(after, n) == n.content;
    forall i | 0 <= i < |t.kids|
      ensures Unfolds(after, Next(after, n)[i], t.kids[i])
    {
      assert ShowsOne(g, r.walked - {}, n.content[i], t.kids[i]);
      KidIsSmaller(t.kids, i);
      DoneUnfolds(r, g, n.content[i]);
    }
  }

  // What the rest of the linter may rely on once a document is loaded.
  ghost predicate Resolves(before: Tree, after: Tree) {
    && (forall path {:trigger PlainRead(after, path)} {:trigger Read(before, path)} ::
          PlainRead(after, path) == Map(Read(before, path)))
    && NoAliases(after)
    && (NoKeyNamesMerge(before) ==> NoMergeKeys(after))
    && Size(after) <= Size(before)
  }

  lemma ResolvedResolves(t: Tree)
    requires Sane(t)
    ensures Resolves(t, Resolved(t))
  {
    forall path
      ensures PlainRead(Resolved(t), path) == Map(Read(t, path))
    {
      ResolutionPreservesMeaning(t, path);
    }
    ResolvedHasNoAliases(t);
    ResolvedFits(t);
    if NoKeyNamesMerge(t) {
      ResolvedHasNoMergeKeys(t);
    }
  }

  // Parse, from the decoded root on.
  method Parse(root: Node, ghost g: Graph, ghost first: map<Node, int>, ghost last: map<Node, int>) returns (r: Outcome)
    requires Current(g) && ParserShape(g, root, first, last) && root.kind.Mapping?
    modifies g.Keys`content
    ensures r.Accepted? <==> FewPaths(g, root, 100_000) && Decodable(g, root)
    ensures r.Rejected? ==> Current(g) && Blames(g, root, r.why)
    ensures r.Accepted? ==> exists paths :: AllPaths(g, root, paths) && |paths| == r.size
    // The same nodes now unfold into a document that means what the written one did.
    ensures r.Accepted? ==>
              && Acceptable(g, root) && HasTree(Snapshot(g.Keys), root)
              && Resolves(TreeOf(g, root), TreeOf(Snapshot(g.Keys), root))
              && Size(TreeOf(Snapshot(g.Keys), root)) <= MAX_EXPANDED_NODES
  {
    var sizer := new Sizer();
    assert Reached(sizer.sizes, g, first, first[root]) by {
      assert forall m | m in g :: Numbered(g, root, m, first, last);
    }
    r := sizer.ExpandedSize(root, g, root, first, last, []);
    ParserShapeCloses(g, root, first, last);
    AcceptedIsDecodable(g, root);
    if r.Rejected? {
      ExplainedIsBlamed(g, root, r.why);
      return;
    }
    SizeCountsPaths(g, root);
    AliasesAreNamed(g, root);
    var resolver := new Resolver();
    var _ := resolver.Value(root, g, {});
    DoneUnfolds(resolver, g, root);
    UnfoldingIsUnique(Snapshot(g.Keys), root, Resolved(TreeOf(g, root)), TreeOf(Snapshot(g.Keys), root));
    ResolvedResolves(TreeOf(g, root));
  }
}
