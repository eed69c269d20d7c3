// The in-place pass that resolves aliases and merge keys, over the shared node graph.
//
// `g` is the graph as the preflight measured it. A node is done once its content spells out the resolved tree of its
// original unfolding, with every node in it done as well; the nodes being rewritten right now are `active`.
module Resolver {
  import opened YamlGraph
  import opened Preflight
  import opened Merge

  // The preflight accepts the node and the parser's aliases name something.
  ghost predicate Good(g: Graph, n: Node) {
    n in g && HasTree(g, n) && Sane(TreeOf(g, n))
  }

  lemma GoodNext(g: Graph, n: Node)
    requires Closed(g) && Good(g, n)
    ensures forall i | 0 <= i < |Next(g, n)| ::
              Good(g, Next(g, n)[i]) && SizeAt(g, Next(g, n)[i]) < SizeAt(g, n)
              && TreeOf(g, n).kids[i] == TreeOf(g, Next(g, n)[i])
    ensures |TreeOf(g, n).kids| == |Next(g, n)| && TreeOf(g, n).node == n
  {
    TreeOfKids(g, n);
    assert EdgesStay(g, n);
    forall i | 0 <= i < |Next(g, n)|
      ensures Good(g, Next(g, n)[i]) && SizeAt(g, Next(g, n)[i]) < SizeAt(g, n)
    {
      NextIsSmaller(g, n, i);
      assert Sane(TreeOf(g, n).kids[i]);
    }
  }

  // `ns` are the done nodes at the roots of the resolved trees `ts`.
  ghost predicate Shows(g: Graph, done: set<Node>, ns: seq<Node>, ts: seq<Tree>) {
    |ns| == |ts| && forall i | 0 <= i < |ns| :: ShowsOne(g, done, ns[i], ts[i])
  }

  ghost predicate ShowsOne(g: Graph, done: set<Node>, n: Node, t: Tree) {
    n in done && Good(g, n) && t.node == n && t == Resolved(TreeOf(g, n))
  }

  ghost predicate Finished(g: Graph, done: set<Node>, n: Node, content: seq<Node>) {
    !n.kind.Alias? && Good(g, n) && Shows(g, done, content, Resolved(TreeOf(g, n)).kids)
  }

  ghost predicate Below(g: Graph, active: set<Node>, n: Node) {
    forall p | p in active :: SizeAt(g, n) < SizeAt(g, p)
  }

  class Resolver {
    var walked: set<Node>

    constructor ()
      ensures walked == {}
    {
      walked := {};
    }

    ghost predicate Inv(g: Graph, active: set<Node>)
      reads this, g.Keys
    {
      && active <= walked <= g.Keys
      && (forall n | n in g && n !in walked :: n.content == g[n])
      && (forall n | n in walked && n !in active :: Finished(g, walked - active, n, n.content))
    }

    // Once its content is right, an active node is done.
    lemma Completes(g: Graph, active: set<Node>, n: Node)
      requires n !in active && Inv(g, active + {n})
      requires !n.kind.Alias? && Good(g, n)
      requires Shows(g, walked - (active + {n}), n.content, Resolved(TreeOf(g, n)).kids)
      ensures Inv(g, active)
    {
      var done := walked - active;
      forall m | m in walked && m !in active
        ensures Finished(g, done, m, m.content)
      {
        ShowsGrows(g, walked - (active + {n}), done, m.content, Resolved(TreeOf(g, m)).kids);
      }
    }

    // value: what a node stands for, done.
    method Value(n: Node, ghost g: Graph, ghost active: set<Node>) returns (r: Node)
      requires Closed(g) && Good(g, n) && Inv(g, active) && Below(g, active, n)
      modifies this, g.Keys`content
      ensures Inv(g, active) && old(walked) <= walked
      ensures forall m | m in old(walked) :: m.content == old(m.content)
      ensures r == Target(TreeOf(g, n)).node
      ensures ShowsOne(g, walked - active, r, Resolved(TreeOf(g, n)))
      decreases SizeAt(g, n), 3
    {
      TargetSettles(TreeOf(g, n));
      GoodNext(g, n);
      if !n.kind.Alias? {
        Walk(n, g, active);
        return n;
      }
      assert Next(g, n)[0] == n.alias;
      r := Value(n.alias, g, active);
    }

    // walk: rewrites a node's children, once.
    method Walk(n: Node, ghost g: Graph, ghost active: set<Node>)
      requires Closed(g) && Good(g, n) && !n.kind.Alias? && Inv(g, active) && Below(g, active, n)
      modifies this, g.Keys`content
      ensures Inv(g, active) && old(walked) <= walked
      ensures forall m | m in old(walked) :: m.content == old(m.content)
      ensures n in walked
      decreases SizeAt(g, n), 2
    {
      if n in walked {
        return;
      }
      walked := walked + {n};
      if n.kind.Mapping? {
        Mapping(n, g, active);
      } else {
        Items(n, g, active);
      }
    }

    // The loop of walk over anything but a mapping.
    method Items(n: Node, ghost g: Graph, ghost active: set<Node>)
      requires Closed(g) && Good(g, n) && !n.kind.Alias? && !n.kind.Mapping?
      requires n !in active && Inv(g, active + {n}) && Below(g, active, n) && n.content == g[n]
      modifies this, g.Keys`content
      ensures Inv(g, active) && old(walked) <= walked
      ensures forall m | m in old(walked) && m != n :: m.content == old(m.content)
      decreases SizeAt(g, n), 1
    {
      ghost var now := active + {n};
      ghost var ts := Resolved(TreeOf(g, n)).kids;
      GoodNext(g, n);
      for i := 0 to |n.content|
        invariant Inv(g, now) && old(walked) <= walked
        invariant forall m | m in old(walked) && m != n :: m.content == old(m.content)
        invariant |n.content| == |g[n]| && n.content[i..] == g[n][i..]
        invariant Shows(g, walked - now, n.content[..i], ts[..i])
      {
        var c := n.content[i];
        assert c == g[n][i..][0];
        ResolvedAllAt(TreeOf(g, n).kids, i);
        ghost var before := n.content;
        ghost var done := walked - now;
        var v := Value(c, g, now);
        ShowsGrows(g, done, walked - now, before[..i], ts[..i]);
        n.content := n.content[i := v];
        SlotFilled(g, walked - now, before, ts, g[n], i, v);
      }
      assert n.content[..|ts|] == n.content && ts[..|ts|] == ts;
      Completes(g, active, n);
    }

    // mapping: the entries a mapping writes itself, then those its merge keys supply.
    method Mapping(n: Node, ghost g: Graph, ghost active: set<Node>)
      requires Closed(g) && Good(g, n) && n.kind.Mapping?
      requires n !in active && Inv(g, active + {n}) && Below(g, active, n) && n.content == g[n]
      modifies this, g.Keys`content
      ensures Inv(g, active) && old(walked) <= walked
      ensures forall m | m in old(walked) && m != n :: m.content == old(m.content)
      decreases SizeAt(g, n), 1
    {
      ghost var now := active + {n};
      var local, merged, own, given := Gather(n, g, now);
      var entries := MergedEntries(local, merged, own, given, g, now);
      ShowsAppends(g, walked - now, local, own, entries, FromAll(given, Keys(own)));
      assert Shows(g, walked - now, local + entries, Resolved(TreeOf(g, n)).kids);
      n.content := local + entries;
      Completes(g, active, n);
    }

    // The loop of mapping: the entries written, and the sources the merge keys name.
    method Gather(n: Node, ghost g: Graph, ghost now: set<Node>)
      returns (local: seq<Node>, merged: seq<Node>, ghost own: seq<Tree>, ghost given: seq<Tree>)
      requires Closed(g) && Good(g, n) && n.kind.Mapping? && n in now
      requires Inv(g, now) && n.content == g[n] && forall p | p in now :: SizeAt(g, n) <= SizeAt(g, p)
      modifies this, g.Keys`content
      ensures Inv(g, now) && old(walked) <= walked
      ensures forall m | m in old(walked) :: m.content == old(m.content)
      ensures Shows(g, walked - now, local, own) && Shows(g, walked - now, merged, given)
      ensures |own| % 2 == 0 && Resolved(TreeOf(g, n)).kids == own + FromAll(given, Keys(own))
      decreases SizeAt(g, n), 0
    {
      ghost var kids := TreeOf(g, n).kids;
      own, given, local, merged := [], [], [], [];
      GoodNext(g, n);
      var i := 0;
      assert kids[0..] == kids;
      while i + 1 < |n.content|
        invariant 0 <= i <= |kids|
        invariant Inv(g, now) && old(walked) <= walked
        invariant forall m | m in old(walked) :: m.content == old(m.content)
        invariant Shows(g, walked - now, local, own) && Shows(g, walked - now, merged, given)
        invariant Gathered(kids, i, own, given)
        decreases |n.content| - i
      {
        local, merged, own, given :=
          GatherOne(n.content[i], n.content[i + 1], g, now, kids, i, local, merged, own, given);
        i := i + 2;
      }
      MappingEnds(TreeOf(g, n), i, own, given);
    }

    // One turn of that loop.
    method GatherOne(k: Node, v: Node, ghost g: Graph, ghost now: set<Node>, ghost kids: seq<Tree>, ghost i: nat,
                     before: seq<Node>, sofar: seq<Node>, ghost own: seq<Tree>, ghost given: seq<Tree>)
      returns (local: seq<Node>, merged: seq<Node>, ghost own': seq<Tree>, ghost given': seq<Tree>)
      requires Closed(g) && Good(g, k) && Good(g, v) && Inv(g, now) && Below(g, now, k) && Below(g, now, v)
      requires i + 1 < |kids| && kids[i] == TreeOf(g, k) && kids[i + 1] == TreeOf(g, v)
      requires Shows(g, walked - now, before, own) && Shows(g, walked - now, sofar, given)
      requires Gathered(kids, i, own, given)
      modifies this, g.Keys`content
      ensures Inv(g, now) && old(walked) <= walked
      ensures forall m | m in old(walked) :: m.content == old(m.content)
      ensures Shows(g, walked - now, local, own') && Shows(g, walked - now, merged, given')
      ensures Gathered(kids, i + 2, own', given')
      decreases if SizeAt(g, k) < SizeAt(g, v) then SizeAt(g, v) else SizeAt(g, k), 5
    {
      local, merged, own', given' := before, sofar, own, given;
      ghost var done := walked - now;
      GatheredStep(kids, i, own, given);
      if k.tag == MERGE_TAG {
        var sources := MergeSources(k, v, g, now);
        ShowsGrows(g, done, walked - now, before, own);
        ShowsGrows(g, done, walked - now, sofar, given);
        ShowsAppends(g, walked - now, sofar, given, sources, Supplied(Resolved(kids[i + 1])));
        merged, given' := sofar + sources, given + Supplied(Resolved(kids[i + 1]));
      } else {
        var entry := Entry(k, v, g, now);
        ShowsGrows(g, done, walked - now, before, own);
        ShowsGrows(g, done, walked - now, sofar, given);
        ShowsAppends(g, walked - now, before, own, entry, [Resolved(kids[i]), Resolved(kids[i + 1])]);
        local, own' := before + entry, own + [Resolved(kids[i]), Resolved(kids[i + 1])];
      }
    }

    // An entry the mapping writes itself.
    method Entry(k: Node, v: Node, ghost g: Graph, ghost active: set<Node>) returns (entry: seq<Node>)
      requires Closed(g) && Good(g, k) && Good(g, v) && Inv(g, active) && Below(g, active, k) && Below(g, active, v)
      modifies this, g.Keys`content
      ensures Inv(g, active) && old(walked) <= walked
      ensures forall m | m in old(walked) :: m.content == old(m.content)
      ensures Shows(g, walked - active, entry, [Resolved(TreeOf(g, k)), Resolved(TreeOf(g, v))])
      decreases if SizeAt(g, k) < SizeAt(g, v) then SizeAt(g, v) else SizeAt(g, k), 4
    {
      var key := Value(k, g, active);
      ghost var between := walked - active;
      var value := Value(v, g, active);
      ShowsOneGrows(g, between, walked - active, key, Resolved(TreeOf(g, k)));
      entry := [key, value];
    }

    // mergeSources, for a key that is a merge key. Every source it hands back is already fully rewritten.
    method MergeSources(k: Node, v: Node, ghost g: Graph, ghost active: set<Node>) returns (sources: seq<Node>)
      requires Closed(g) && Good(g, v) && Inv(g, active) && Below(g, active, v)
      modifies this, g.Keys`content
      ensures Inv(g, active) && old(walked) <= walked
      ensures forall m | m in old(walked) :: m.content == old(m.content)
      ensures Shows(g, walked - active, sources, Supplied(Resolved(TreeOf(g, v))))
      decreases SizeAt(g, v), 4
    {
      var value := Value(v, g, active);
      if value.kind.Mapping? {
        return [value];
      }
      return value.content;
    }

    // mergedEntries: what the sources supply beyond the keys already there.
    method MergedEntries(local: seq<Node>, merged: seq<Node>, ghost own: seq<Tree>, ghost given: seq<Tree>,
                         ghost g: Graph, ghost active: set<Node>)
      returns (out: seq<Node>)
      requires Inv(g, active) && |local| % 2 == 0
      requires Shows(g, walked - active, local, own) && Shows(g, walked - active, merged, given)
      ensures Shows(g, walked - active, out, FromAll(given, Keys(own)))
    {
      if |merged| == 0 {
        return [];
      }
      var seen := WrittenKeys(local, own, g, walked - active);
      out := [];
      ghost var taken: seq<Tree> := [];
      ghost var whole := FromAll(given, Keys(own));
      assert given[0..] == given && [] + whole == whole;
      for s := 0 to |merged|
        invariant Shows(g, walked - active, out, taken)
        invariant whole == taken + FromAll(given[s..], seen)
      {
        SourceStep(whole, taken, given, s, seen);
        assert ShowsOne(g, walked - active, merged[s], given[s]);
        out, seen, taken := FromSource(merged[s], given[s], out, seen, whole, taken,
          FromAll(given[s + 1..], seen + Keys(given[s].kids)), g, active);
      }
      assert given[|merged|..] == [] && taken + [] == taken;
    }

    // The first loop of mergedEntries: the keys the mapping writes itself.
    static method WrittenKeys(local: seq<Node>, ghost own: seq<Tree>, ghost g: Graph, ghost done: set<Node>)
      returns (seen: set<string>)
      requires |local| % 2 == 0 && Shows(g, done, local, own)
      ensures seen == Keys(own)
    {
      seen := {};
      assert own[0..] == own;
      ghost var pairs := |local| / 2;
      for i := 0 to |local| / 2
        invariant seen + Keys(own[2 * i..]) == Keys(own)
      {
        assert own[2 * i..][2..] == own[2 * (i + 1)..];
        assert ShowsOne(g, done, local[2 * i], own[2 * i]);
        seen := seen + {local[2 * i].value};
      }
      assert Keys(own[2 * pairs..]) == {};
    }

    // The inner loop of mergedEntries: one source's entries, less the keys already seen.
    method FromSource(src: Node, ghost source: Tree, out: seq<Node>, seen: set<string>,
                      ghost whole: seq<Tree>, ghost taken: seq<Tree>, ghost rest: seq<Tree>,
                      ghost g: Graph, ghost active: set<Node>)
      returns (out': seq<Node>, seen': set<string>, ghost taken': seq<Tree>)
      requires Inv(g, active) && ShowsOne(g, walked - active, src, source)
      requires Shows(g, walked - active, out, taken) && whole == taken + FromOne(source.kids, seen) + rest
      ensures seen' == seen + Keys(source.kids)
      ensures Shows(g, walked - active, out', taken') && whole == taken' + rest
    {
      ghost var kids := source.kids;
      assert Finished(g, walked - active, src, src.content);
      out', seen', taken' := out, seen, taken;
      var j := 0;
      assert kids[0..] == kids;
      while j + 1 < |src.content|
        invariant 0 <= j <= |kids|
        invariant seen' + Keys(kids[j..]) == seen + Keys(kids)
        invariant Shows(g, walked - active, out', taken')
        invariant whole == taken' + FromOne(kids[j..], seen') + rest
        decreases |kids| - j
      {
        var k, v := src.content[j], src.content[j + 1];
        TakeStep(whole, taken', kids, j, seen', rest);
        assert ShowsOne(g, walked - active, k, kids[j]) && ShowsOne(g, walked - active, v, kids[j + 1]);
        if k.value !in seen' {
          ShowsPair(g, walked - active, out', taken', k, v, kids[j], kids[j + 1]);
          seen' := seen' + {k.value};
          out', taken' := out' + [k, v], taken' + [kids[j], kids[j + 1]];
        }
        j := j + 2;
      }
      SourceEnds(whole, taken', kids, j, seen', rest);
    }
  }

  // Bookkeeping of the loops: what is spelled out so far, followed by what the rest supplies.

  ghost predicate Gathered(kids: seq<Tree>, i: nat, own: seq<Tree>, given: seq<Tree>) {
    && i <= |kids|
    && Own(kids) == own + Own(kids[i..])
    && Sources(kids) == given + Sources(kids[i..])
  }

  lemma GatheredStep(kids: seq<Tree>, i: nat, own: seq<Tree>, given: seq<Tree>)
    requires i + 1 < |kids| && Gathered(kids, i, own, given)
    ensures IsMergeKey(kids[i]) ==> Gathered(kids, i + 2, own, given + Supplied(Resolved(kids[i + 1])))
    ensures !IsMergeKey(kids[i]) ==> Gathered(kids, i + 2, own + [Resolved(kids[i]), Resolved(kids[i + 1])], given)
  {
    assert kids[i..][2..] == kids[i + 2..];
    if IsMergeKey(kids[i]) {
      Associates(given, Supplied(Resolved(kids[i + 1])), Sources(kids[i + 2..]));
    } else {
      Associates(own, [Resolved(kids[i]), Resolved(kids[i + 1])], Own(kids[i + 2..]));
    }
  }

  lemma Associates<T>(a: seq<T>, b: seq<T>, c: seq<T>)
    ensures a + (b + c) == a + b + c
  {
  }

  lemma SourceStep(whole: seq<Tree>, taken: seq<Tree>, given: seq<Tree>, s: nat, seen: set<string>)
    requires s < |given| && whole == taken + FromAll(given[s..], seen)
    ensures given[s].kids[0..] == given[s].kids
    ensures whole == taken + FromOne(given[s].kids, seen) + FromAll(given[s + 1..], seen + Keys(given[s].kids))
  {
    assert given[s..][1..] == given[s + 1..];
  }

  lemma TakeStep(whole: seq<Tree>, taken: seq<Tree>, kids: seq<Tree>, j: nat, seen: set<string>, rest: seq<Tree>)
    requires j + 1 < |kids| && whole == taken + FromOne(kids[j..], seen) + rest
    ensures Keys(kids[j..]) == {kids[j].node.value} + Keys(kids[j + 2..])
    ensures kids[j].node.value in seen ==> whole == taken + FromOne(kids[j + 2..], seen) + rest
    ensures kids[j].node.value !in seen ==>
              whole == taken + [kids[j], kids[j + 1]] + FromOne(kids[j + 2..], seen + {kids[j].node.value}) + rest
  {
    assert kids[j..][2..] == kids[j + 2..];
    assert kids[j..][..2] == [kids[j], kids[j + 1]];
  }

  lemma SourceEnds(whole: seq<Tree>, taken: seq<Tree>, kids: seq<Tree>, j: nat, seen: set<string>, rest: seq<Tree>)
    requires j <= |kids| <= j + 1 && whole == taken + FromOne(kids[j..], seen) + rest
    ensures whole == taken + rest && Keys(kids[j..]) == {}
  {
    assert FromOne(kids[j..], seen) == [];
    assert taken + [] == taken;
  }

  lemma MappingEnds(t: Tree, i: nat, own: seq<Tree>, given: seq<Tree>)
    requires t.node.kind.Mapping? && i <= |t.kids| <= i + 1 && Gathered(t.kids, i, own, given)
    ensures |own| % 2 == 0 && Resolved(t).kids == own + FromAll(given, Keys(own))
  {
    assert Own(t.kids[i..]) == [] && Sources(t.kids[i..]) == [];
    assert own + [] == own && given + [] == given;
  }

  lemma ShowsAppends(g: Graph, done: set<Node>, ns: seq<Node>, ts: seq<Tree>, ms: seq<Node>, us: seq<Tree>)
    requires Shows(g, done, ns, ts) && Shows(g, done, ms, us)
    ensures Shows(g, done, ns + ms, ts + us)
  {
  }

  lemma ShowsPair(g: Graph, done: set<Node>, ns: seq<Node>, ts: seq<Tree>, k: Node, v: Node, kt: Tree, vt: Tree)
    requires Shows(g, done, ns, ts) && ShowsOne(g, done, k, kt) && ShowsOne(g, done, v, vt)
    ensures Shows(g, done, ns + [k, v], ts + [kt, vt])
  {
  }

  lemma ShowsOneGrows(g: Graph, done: set<Node>, more: set<Node>, n: Node, t: Tree)
    requires ShowsOne(g, done, n, t) && done <= more
    ensures ShowsOne(g, more, n, t)
  {
  }

  lemma SlotFilled(g: Graph, done: set<Node>, before: seq<Node>, ts: seq<Tree>, written: seq<Node>, i: nat, v: Node)
    requires |before| == |written| == |ts| && i < |ts| && before[i..] == written[i..]
    requires Shows(g, done, before[..i], ts[..i]) && ShowsOne(g, done, v, ts[i])
    ensures Shows(g, done, before[i := v][..i + 1], ts[..i + 1])
    ensures before[i := v][i + 1..] == written[i + 1..]
  {
    assert before[i := v][..i + 1] == before[..i] + [v] && ts[..i + 1] == ts[..i] + [ts[i]];
    assert before[i := v][i + 1..] == before[i..][1..] && written[i + 1..] == written[i..][1..];
  }

  lemma ShowsGrows(g: Graph, done: set<Node>, more: set<Node>, ns: seq<Node>, ts: seq<Tree>)
    requires Shows(g, done, ns, ts) && done <= more
    ensures Shows(g, more, ns, ts)
  {
  }
}
